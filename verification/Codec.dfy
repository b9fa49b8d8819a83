/** CONNECT and PUBLISH bodies (sections 1.5.3, 3.1 and 3.3 of MQTT 3.1.1). */
module Codec {
  import opened Bytes
  import opened Framing

  const PROTOCOL_LEVEL_4: Byte := 4
  const CLEAN_SESSION: Byte := 2
  const MAX_STRING: nat := 65535

  datatype Connect = Connect(clientId: Str, level: Byte, keepAlive: UInt16)

  datatype Publish = Publish(topic: Str, qos: Byte, packetId: UInt16, payload: Str)

  /** A length-prefixed string. The length is cut to 16 bits, the bytes are not. */
  function EncodeString(s: Str): Str {
    Be16(|s|) + s
  }

  /** The string at the front of `b` and the bytes after it. */
  function DecodeString(b: Str): Result<(Str, Str), WireError> {
    if |b| < 2 then Err(Malformed)
    else
      var n := FromBe16(b);
      if |b| < 2 + n then Err(Malformed) else Ok((b[2..2 + n], b[2 + n..]))
  }

  function ProtocolName(): Str {
    Ascii("MQTT")
  }

  function EncodeConnect(c: Connect): Str {
    var level := if c.level == 0 then PROTOCOL_LEVEL_4 else c.level;
    EncodeString(ProtocolName()) + [level, CLEAN_SESSION] + Be16(c.keepAlive) + EncodeString(c.clientId)
  }

  function DecodeConnect(body: Str): Result<Connect, WireError> {
    match DecodeString(body)
    case Err(e) => Err(e)
    case Ok((name, rest)) =>
      if name != ProtocolName() then Err(Malformed)
      else if |rest| < 4 then Err(Malformed)
      else if rest[0] != PROTOCOL_LEVEL_4 then Err(Malformed)
      else if 64 <= rest[1] then Err(CredentialsInConnect)
      else
        match DecodeString(rest[4..])
        case Err(e) => Err(e)
        case Ok((clientId, _)) => Ok(Connect(clientId, rest[0], FromBe16(rest[2..4])))
  }

  /** The fixed-header flags and the body. */
  function EncodePublish(p: Publish): (Byte, Str) {
    (p.qos % 4 * 2, EncodeString(p.topic) + (if 0 < p.qos then Be16(p.packetId) else []) + p.payload)
  }

  function DecodePublish(flags: Byte, body: Str): Result<Publish, WireError> {
    var qos := flags / 2 % 4;
    if 1 < qos then Err(Malformed)
    else
      match DecodeString(body)
      case Err(e) => Err(e)
      case Ok((topic, rest)) =>
        if qos == 0 then Ok(Publish(topic, 0, 0, rest))
        else if |rest| < 2 then Err(Malformed)
        else Ok(Publish(topic, qos, FromBe16(rest), rest[2..]))
  }

  /** What a PUBLISH can carry: a packet id travels only with QoS 1. */
  function Carried(p: Publish): Publish {
    if p.qos == 0 then p.(packetId := 0) else p
  }

  // ----- The bytes themselves (sections 3.1 and 3.3) -----

  lemma ConnectBytes(c: Connect)
    ensures var n := |c.clientId|;
            EncodeConnect(c) ==
            [0, 4, 77, 81, 84, 84, if c.level == 0 then 4 else c.level, 2, c.keepAlive / 256, c.keepAlive % 256]
            + ([n / 256 % 256, n % 256] + c.clientId)
  {
    assert ProtocolName() == [77, 81, 84, 84];
  }

  lemma PublishBytes(p: Publish)
    ensures var (flags, body) := EncodePublish(p);
            var n := |p.topic|;
            && flags == 2 * (p.qos % 4)
            && body == [n / 256 % 256, n % 256] + p.topic
                       + (if 0 < p.qos then [p.packetId / 256, p.packetId % 256] else []) + p.payload
  {
  }

  lemma DecodeEncodeString(s: Str, rest: Str)
    requires |s| <= MAX_STRING
    ensures DecodeString(EncodeString(s) + rest) == Ok((s, rest))
  {
    var b := EncodeString(s) + rest;
    assert b == Be16(|s|) + (s + rest);
    Be16RoundTrip(|s|, s + rest);
    assert b[2..2 + |s|] == s && b[2 + |s|..] == rest;
  }

  lemma EncodeDecodeString(b: Str)
    requires DecodeString(b).Ok?
    ensures var (s, rest) := DecodeString(b).value; |s| <= MAX_STRING && b == EncodeString(s) + rest
  {
    var n := FromBe16(b);
    FromBe16RoundTrip(b);
    assert b == b[..2] + b[2..2 + n] + b[2 + n..];
  }

  /** Decoding undoes encoding exactly for QoS 0 and 1 with a topic whose length fits 16 bits. */
  lemma DecodeEncodePublish(p: Publish)
    ensures var (flags, body) := EncodePublish(p);
            DecodePublish(flags, body) == Ok(Carried(p)) <==> p.qos <= 1 && |p.topic| <= MAX_STRING
  {
    var (flags, body) := EncodePublish(p);
    assert flags / 2 % 4 == p.qos % 4;
    if p.qos <= 1 && |p.topic| <= MAX_STRING {
      PublishArrives(p);
    } else if DecodePublish(flags, body).Ok? {
      EncodeDecodeString(body);
    }
  }

  lemma PublishArrives(p: Publish)
    requires p.qos <= 1 && |p.topic| <= MAX_STRING
    ensures var (flags, body) := EncodePublish(p); DecodePublish(flags, body) == Ok(Carried(p))
  {
    var (flags, body) := EncodePublish(p);
    if p.qos == 0 {
      ConcatAssoc(EncodeString(p.topic), [], p.payload);
      assert [] + p.payload == p.payload;
      DecodeEncodeString(p.topic, p.payload);
      DecodesTo(body, p.topic, p.payload);
    } else {
      var rest := Be16(p.packetId) + p.payload;
      ConcatAssoc(EncodeString(p.topic), Be16(p.packetId), p.payload);
      DecodeEncodeString(p.topic, rest);
      PacketIdRoundTrip(p.packetId, p.payload);
      DecodesTo(body, p.topic, rest);
    }
  }

  lemma DecodesTo(body: Str, topic: Str, rest: Str)
    requires DecodeString(body) == Ok((topic, rest))
    ensures DecodePublish(0, body) == Ok(Publish(topic, 0, 0, rest))
    ensures 2 <= |rest| ==> DecodePublish(2, body) == Ok(Publish(topic, 1, FromBe16(rest), rest[2..]))
  {
  }

  lemma PacketIdRoundTrip(id: UInt16, rest: Str)
    ensures var b := Be16(id) + rest; 2 <= |b| && FromBe16(b) == id && b[2..] == rest
  {
    Be16RoundTrip(id, rest);
  }

  /** Encoding a decoded PUBLISH rebuilds its body byte for byte, and its flags without DUP and
    RETAIN. */
  lemma EncodeDecodePublish(flags: Byte, body: Str)
    requires DecodePublish(flags, body).Ok?
    ensures var p := DecodePublish(flags, body).value;
            p.qos <= 1 && |p.topic| <= MAX_STRING && EncodePublish(p) == (flags / 2 % 4 * 2, body)
  {
    EncodeDecodeString(body);
    var (topic, rest) := DecodeString(body).value;
    if flags / 2 % 4 == 1 {
      FromBe16RoundTrip(rest);
      assert rest == rest[..2] + rest[2..];
      assert body == EncodeString(topic) + rest[..2] + rest[2..];
    } else {
      assert EncodeString(topic) + [] + rest == body;
    }
  }

  /** Decoding a CONNECT undoes encoding it, with level 0 read as the default level 4, exactly for
    those two levels and a client id whose length fits 16 bits. */
  lemma DecodeEncodeConnect(c: Connect)
    ensures DecodeConnect(EncodeConnect(c)) == Ok(c.(level := PROTOCOL_LEVEL_4))
            <==> (c.level == 0 || c.level == PROTOCOL_LEVEL_4) && |c.clientId| <= MAX_STRING
  {
    var level := if c.level == 0 then PROTOCOL_LEVEL_4 else c.level;
    var id := EncodeString(c.clientId);
    var rest := [level, CLEAN_SESSION] + Be16(c.keepAlive) + id;
    assert EncodeConnect(c) == EncodeString(ProtocolName()) + rest;
    DecodeEncodeString(ProtocolName(), rest);
    assert rest[0] == level && rest[1] == CLEAN_SESSION && rest[4..] == id;
    assert rest[2..4] == Be16(c.keepAlive) + [];
    Be16RoundTrip(c.keepAlive, []);
    if |c.clientId| <= MAX_STRING {
      assert id == EncodeString(c.clientId) + [];
      DecodeEncodeString(c.clientId, []);
    } else if DecodeString(id).Ok? {
      EncodeDecodeString(id);
    }
  }

  /** A CONNECT body of level 4 up to its flags. */
  predicate OfLevel4(body: Str, flags: Byte, tail: Str) {
    2 <= |tail| && body == EncodeString(ProtocolName()) + ([PROTOCOL_LEVEL_4, flags] + tail)
  }

  /** A CONNECT is refused for its credentials exactly when it is otherwise one of level 4 whose flags
    announce a user name or a password, whatever follows. */
  lemma CredentialsRefused(body: Str)
    ensures DecodeConnect(body) == Err(CredentialsInConnect)
            <==> exists flags, tail :: OfLevel4(body, flags, tail) && 64 <= flags
  {
    if DecodeConnect(body) == Err(CredentialsInConnect) {
      EncodeDecodeString(body);
      var rest := DecodeString(body).value.1;
      assert rest == [rest[0], rest[1]] + rest[2..];
      assert OfLevel4(body, rest[1], rest[2..]);
    }
    forall flags, tail | OfLevel4(body, flags, tail) && 64 <= flags
      ensures DecodeConnect(body) == Err(CredentialsInConnect)
    {
      var rest := [PROTOCOL_LEVEL_4, flags] + tail;
      DecodeEncodeString(ProtocolName(), rest);
      assert rest[0] == PROTOCOL_LEVEL_4 && rest[1] == flags;
    }
  }

  /** The bodies `DecodeConnect` accepts, written out. */
  predicate WellFormedConnect(body: Str, c: Connect, flags: Byte, trailing: Str) {
    && c.level == PROTOCOL_LEVEL_4
    && flags < 64
    && |c.clientId| <= MAX_STRING
    && body == EncodeString(ProtocolName())
               + ([c.level, flags] + Be16(c.keepAlive) + (EncodeString(c.clientId) + trailing))
  }

  /** `DecodeConnect` accepts exactly the protocol name, level 4, flags without user name and
    password, a keep-alive and a client id; it ignores the other flags and whatever follows. */
  lemma ConnectAccepted(body: Str, c: Connect)
    ensures DecodeConnect(body) == Ok(c) <==> exists flags, trailing :: WellFormedConnect(body, c, flags, trailing)
  {
    if DecodeConnect(body) == Ok(c) {
      EncodeDecodeString(body);
      var rest := DecodeString(body).value.1;
      EncodeDecodeString(rest[4..]);
      FromBe16RoundTrip(rest[2..4]);
      assert rest[2..4] == rest[2..4][..2];
      assert rest == [rest[0], rest[1]] + rest[2..4] + rest[4..];
      assert WellFormedConnect(body, c, rest[1], DecodeString(rest[4..]).value.1);
    }
    forall flags, trailing | WellFormedConnect(body, c, flags, trailing)
      ensures DecodeConnect(body) == Ok(c)
    {
      var id := EncodeString(c.clientId) + trailing;
      var rest := [c.level, flags] + Be16(c.keepAlive) + id;
      DecodeEncodeString(ProtocolName(), rest);
      assert rest[0] == c.level && rest[1] == flags && rest[4..] == id;
      assert rest[2..4] == Be16(c.keepAlive) + [];
      Be16RoundTrip(c.keepAlive, []);
      DecodeEncodeString(c.clientId, trailing);
    }
  }
}
