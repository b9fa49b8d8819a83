/** Control packets on the wire: fixed header, Remaining Length, body (section 2.2 of MQTT 3.1.1). */
module Framing {
  import opened Bytes
  import Varint

  const CONNECT: Byte := 1
  const CONNACK: Byte := 2
  const PUBLISH: Byte := 3
  const PUBACK: Byte := 4
  const PINGREQ: Byte := 12
  const PINGRESP: Byte := 13
  const DISCONNECT: Byte := 14

  const MAX_PACKET_SIZE: nat := 65536

  /** The terminal errors of the wire format. `StreamEnd` stands for whatever error the connection
    gives once its bytes run out: end of file, a deadline, a reset. */
  datatype WireError = Malformed | TooLarge | CredentialsInConnect | StreamEnd

  datatype Packet = Packet(kind: Byte, flags: Byte, body: Str)

  datatype Parsed = Got(packet: Packet, used: nat) | Failed(error: WireError)

  /** The bytes `Write` sends for one packet, of any kind and flags that fit a byte. */
  function Frame(p: Packet): Str {
    [p.kind * 16 % 256 + p.flags % 16] + Varint.Encode(|p.body|) + p.body
  }

  /** `Write`, up to handing the buffer to the connection. */
  method Write(p: Packet) returns (r: Result<Str, WireError>)
    ensures r == if |p.body| <= MAX_PACKET_SIZE then Ok(Frame(p)) else Err(TooLarge)
  {
    if MAX_PACKET_SIZE < |p.body| {
      return Err(TooLarge);
    }
    var buf := [p.kind * 16 % 256 + p.flags % 16];
    buf := Varint.AppendVarint(buf, |p.body|);
    return Ok(buf + p.body);
  }

  /** A packet whose header nibbles hold its kind and flags and whose body `Write` accepts. */
  predicate Sendable(p: Packet) {
    p.kind < 16 && p.flags < 16 && |p.body| <= MAX_PACKET_SIZE
  }

  function EffectiveMax(max: int): nat {
    if max <= 0 || MAX_PACKET_SIZE < max then MAX_PACKET_SIZE else max
  }

  /** What `Read` reports on a stream whose remaining bytes are `s`. */
  function Parse(s: Str, max: int): Parsed {
    if s == [] then Failed(StreamEnd)
    else
      match Varint.Decode(s[1..])
      case Ended => Failed(StreamEnd)
      case Unterminated => Failed(Malformed)
      case Value(n, u) =>
        if EffectiveMax(max) < n then Failed(TooLarge)
        else if |s| < 1 + u + n then Failed(StreamEnd)
        else Got(Packet(s[0] / 16, s[0] % 16, s[1 + u..1 + u + n]), 1 + u + n)
  }

  /** Every packet that `Read` returns one after another until its first error. */
  function Packets(s: Str): seq<Packet> {
    match Parse(s, MAX_PACKET_SIZE)
    case Failed(_) => []
    case Got(p, u) =>
      ParseBounds(s, MAX_PACKET_SIZE);
      [p] + Packets(s[u..])
  }

  /** That error. */
  function EndError(s: Str): WireError {
    match Parse(s, MAX_PACKET_SIZE)
    case Failed(e) => e
    case Got(p, u) =>
      ParseBounds(s, MAX_PACKET_SIZE);
      EndError(s[u..])
  }

  /** What one `Read` takes off the list of packets. */
  lemma PacketsStep(s: Str)
    ensures var r := Parse(s, MAX_PACKET_SIZE);
            && (r.Failed? ==> Packets(s) == [] && EndError(s) == r.error)
            && (r.Got? ==>
                  && 2 <= r.used <= |s|
                  && Packets(s) == [r.packet] + Packets(s[r.used..]) && EndError(s) == EndError(s[r.used..]))
  {
    if Parse(s, MAX_PACKET_SIZE).Got? {
      ParseBounds(s, MAX_PACKET_SIZE);
    }
  }

  function FrameAll(ps: seq<Packet>): Str {
    if ps == [] then [] else Frame(ps[0]) + FrameAll(ps[1..])
  }

  lemma ParseBounds(s: Str, max: int)
    requires Parse(s, max).Got?
    ensures 2 <= Parse(s, max).used <= |s|
    ensures Sendable(Parse(s, max).packet)
  {
    Varint.DecodeIsMinimal(s[1..]);
  }

  /** One frame is read back as the packet it was written from, whatever follows it; a reader with
    a smaller limit refuses it as too large instead. */
  lemma ParseFrame(p: Packet, rest: Str, max: int)
    requires Sendable(p)
    ensures Parse(Frame(p) + rest, max) ==
            if |p.body| <= EffectiveMax(max) then Got(p, |Frame(p)|) else Failed(TooLarge)
  {
    var s := Frame(p) + rest;
    var head := Varint.Encode(|p.body|);
    assert s[1..] == head + (p.body + rest);
    Varint.DecodeEncode(|p.body|, p.body + rest);
    assert s[1 + |head|..1 + |head| + |p.body|] == p.body;
    assert s[0] == p.kind * 16 + p.flags;
  }

  /** The bytes of a short frame: the packet type in the high half of the first byte, the flags in the low
    half, and the number of bytes that follow. */
  lemma FrameBytes(p: Packet)
    requires p.kind < 16 && p.flags < 16 && |p.body| < 128
    ensures Frame(p) == [16 * p.kind + p.flags, |p.body|] + p.body
  {
    assert Frame(p) == [p.kind * 16 + p.flags] + [|p.body|] + p.body;
  }

  /** What a reader refuses for its size: a limit out of range means 65536 bytes. */
  lemma ReadLimit(p: Packet, rest: Str, max: int)
    requires p.kind < 16 && p.flags < 16 && |p.body| <= 65536
    ensures Parse(Frame(p) + rest, max) == Failed(TooLarge) <==> 1 <= max <= 65536 && max < |p.body|
    ensures Parse(Frame(p) + rest, max).Got? <==> !(1 <= max <= 65536 && max < |p.body|)
  {
    ParseFrame(p, rest, max);
  }

  /** Bodies over 65536 bytes are refused by every reader. */
  lemma OversizeRefused(first: Byte, n: nat, rest: Str, max: int)
    requires 65536 < n < 268435456
    ensures Parse([first] + Varint.Encode(n) + rest, max) == Failed(TooLarge)
  {
    var s := [first] + Varint.Encode(n) + rest;
    assert s[1..] == Varint.Encode(n) + rest;
    Varint.DecodeEncode(n, rest);
  }

  lemma PacketsCons(p: Packet, rest: Str)
    requires Sendable(p)
    ensures Packets(Frame(p) + rest) == [p] + Packets(rest)
  {
    ParseFrame(p, rest, MAX_PACKET_SIZE);
    assert (Frame(p) + rest)[|Frame(p)|..] == rest;
  }

  predicate AllSendable(ps: seq<Packet>) {
    ps == [] || (Sendable(ps[0]) && AllSendable(ps[1..]))
  }

  /** Framing is self-delimiting: reading the concatenation of any list of frames gives back exactly
    that list, then whatever the bytes after it hold. */
  lemma {:induction false} PacketsFrameAll(ps: seq<Packet>, rest: Str)
    requires AllSendable(ps)
    ensures Packets(FrameAll(ps) + rest) == ps + Packets(rest)
  {
    var qs := Packets(rest);
    if ps == [] {
      assert FrameAll(ps) + rest == rest && ps + qs == qs;
    } else {
      var head, tail := Frame(ps[0]), FrameAll(ps[1..]);
      ConcatAssoc(head, tail, rest);
      PacketsCons(ps[0], tail + rest);
      PacketsFrameAll(ps[1..], rest);
      HeadTail(ps);
      ConcatAssoc([ps[0]], ps[1..], qs);
    }
  }

  /** So the wire form of a list of packets is unique. */
  lemma FrameAllInjective(ps: seq<Packet>, qs: seq<Packet>)
    requires AllSendable(ps) && AllSendable(qs)
    ensures FrameAll(ps) == FrameAll(qs) <==> ps == qs
  {
    PacketsFrameAll(ps, []);
    PacketsFrameAll(qs, []);
    assert FrameAll(ps) + [] == FrameAll(ps) && FrameAll(qs) + [] == FrameAll(qs);
    assert ps + Packets([]) == ps && qs + Packets([]) == qs;
  }

  /** A decided answer, packet or refusal, does not depend on the bytes that follow: only a stream
    that ended early can still change its answer. */
  lemma ParseStable(s: Str, t: Str, max: int)
    requires Parse(s, max) != Failed(StreamEnd)
    ensures Parse(s + t, max) == Parse(s, max)
  {
    assert (s + t)[0] == s[0] && (s + t)[1..] == s[1..] + t;
    Varint.DecodeFromStable(s[1..], t, 4);
    match Varint.Decode(s[1..])
    case Value(n, u) =>
      if n <= EffectiveMax(max) {
        SliceOfFront(s, t, 1 + u, 1 + u + n);
      }
    case _ =>
  }

  /** A frame cut short anywhere yields no packet, only the end of the stream. */
  lemma ParseTruncated(p: Packet, k: nat)
    requires Sendable(p) && k < |Frame(p)|
    ensures Parse(Frame(p)[..k], MAX_PACKET_SIZE) == Failed(StreamEnd)
  {
    if 0 < k {
      var head := Varint.Encode(|p.body|);
      var s := Frame(p)[..k];
      if k < 1 + |head| {
        assert s[1..] == head[..k - 1];
        Varint.DecodeTruncated(|p.body|, k - 1);
      } else {
        assert s[1..] == head + p.body[..k - 1 - |head|];
        Varint.DecodeEncode(|p.body|, p.body[..k - 1 - |head|]);
      }
    }
  }

  /** Any accepted packet, framed again, is never longer than what was read, and is those very bytes
    exactly when its Remaining Length was not padded. */
  lemma ParseIsMinimal(s: Str, max: int)
    requires Parse(s, max).Got?
    ensures var r := Parse(s, max);
            var u := r.used - |r.packet.body|;
            2 <= u <= r.used <= |s|
            && |Frame(r.packet)| <= r.used
            && (Frame(r.packet) == s[..r.used] <==> u == 2 || s[u - 1] != 0)
  {
    var d := Varint.Decode(s[1..]);
    Varint.DecodeIsMinimal(s[1..]);
    var u := 1 + d.used;
    var r := Parse(s, max);
    var head := Varint.Encode(d.value);
    assert Frame(r.packet)[0] == s[0];
    assert s[..r.used] == [s[0]] + s[1..][..d.used] + r.packet.body;
    if Frame(r.packet) == s[..r.used] {
      assert |head| == d.used;
      assert Frame(r.packet)[1..u] == head && s[..r.used][1..u] == s[1..][..d.used];
    }
  }

  lemma SliceOfFront(s: Str, t: Str, i: nat, j: nat)
    requires i <= j <= |s|
    ensures (s + t)[i..j] == s[i..j]
  {
  }

  lemma SliceOfSlices(s: Str, u: nat, n: nat)
    requires 1 + u + n <= |s|
    ensures s[1..][u..][..n] == s[1 + u..1 + u + n]
    ensures s[1..][u..][n..] == s[1 + u + n..]
  {
  }

  /** A `bufio.Reader` over a connection: the bytes the peer will still have delivered when the
    connection ends. */
  class Reader {
    var rest: Str

    constructor (input: Str)
      ensures rest == input
    {
      rest := input;
    }

    method ReadByte() returns (r: Option<Byte>)
      modifies this
      ensures old(rest) == [] ==> r == None && rest == []
      ensures old(rest) != [] ==> r == Some(old(rest)[0]) && rest == old(rest)[1..]
    {
      if rest == [] {
        return None;
      }
      r := Some(rest[0]);
      rest := rest[1..];
    }

    /** `io.ReadFull` into a buffer of `n` bytes. */
    method ReadFull(n: nat) returns (r: Option<Str>)
      modifies this
      ensures n <= |old(rest)| ==> r == Some(old(rest)[..n]) && rest == old(rest)[n..]
      ensures |old(rest)| < n ==> r == None && rest == []
    {
      if |rest| < n {
        rest := [];
        return None;
      }
      r := Some(rest[..n]);
      rest := rest[n..];
    }

    method ReadVarint() returns (r: Result<nat, WireError>)
      modifies this
      ensures match Varint.Decode(old(rest))
              case Value(n, u) => r == Ok(n) && u <= |old(rest)| && rest == old(rest)[u..]
              case Ended => r == Err(StreamEnd)
              case Unterminated => r == Err(Malformed)
    {
      var value: nat, scale: nat := 0, 1;
      Varint.ContinueDecodes(rest, 4, 0, 0, 1);
      ghost var input := rest;
      for i := 0 to 4
        invariant i <= |input| && rest == input[i..]
        invariant Varint.Continue(rest, 4 - i, i, value, scale) == Varint.Decode(input)
      {
        var b := ReadByte();
        if b.None? {
          return Err(StreamEnd);
        }
        value := value + b.value % 128 * scale;
        if b.value < 128 {
          return Ok(value);
        }
        scale := scale * 128;
      }
      return Err(Malformed);
    }

    method Read(max: int) returns (r: Result<Packet, WireError>)
      modifies this
      ensures match Parse(old(rest), max)
              case Got(p, u) => r == Ok(p) && u <= |old(rest)| && rest == old(rest)[u..]
              case Failed(e) => r == Err(e)
    {
      var limit := max;
      if limit <= 0 || MAX_PACKET_SIZE < limit {
        limit := MAX_PACKET_SIZE;
      }
      var h := ReadByte();
      if h == None {
        return Err(StreamEnd);
      }
      var n := ReadVarint();
      if n.Err? {
        return Err(n.error);
      }
      if limit < n.value {
        return Err(TooLarge);
      }
      var body := ReadFull(n.value);
      if body == None {
        return Err(StreamEnd);
      }
      SliceOfSlices(old(rest), Varint.Decode(old(rest)[1..]).used, n.value);
      return Ok(Packet(h.value / 16, h.value % 16, body.value));
    }
  }
}
