/** A device session: from the bytes of a connection to readings recorded and replies sent.

  The verified device id is an input, and so is everything the code cannot decide for itself: what a
  payload decodes to, what the clock shows, which writes fail and after how many bytes, and which
  calls to set a deadline fail. */
module Session {
  import opened Bytes
  import opened Records
  import opened Framing
  import opened Codec

  const MAX_METRIC_NAME: nat := 64
  const CONN_ACCEPTED: Byte := 0
  const CONN_REFUSED_BAD_PROTOCOL: Byte := 1
  const CONN_REFUSED_NOT_AUTHED: Byte := 5

  datatype Sample = Sample(metric: Str, value: Number, at: Time)

  datatype SampleError = Undecodable | UnusableMetric | NonFinite

  datatype Sending = Delivered | Broken(delivered: nat)

  /** `write(i)` is the fate of the i-th write, `deadline(i)` whether the i-th deadline could be set,
    `now(i)` the clock as the i-th reading is stored. */
  datatype Env = Env(decode: Str -> Option<Sample>, now: nat -> Time, write: nat -> Sending, deadline: nat -> bool)

  datatype Reply = ConnAck(code: Byte) | PubAck(packetId: UInt16) | PingResp

  /** What a session does, in order. `owed` is the packet id a recorded QoS 1 message still has to be
    acknowledged with. */
  datatype Event =
    | Recorded(sample: Sample, at: Time, owed: Option<UInt16>)
    | Replied(reply: Reply)
    | Broke(reply: Reply, delivered: nat)

  datatype End =
    | Disconnected
    | ReadFailed(error: WireError)
    | NotAConnect
    | ConnectRefused(error: WireError)
    | WriteFailed
    | DeadlineFailed
    | BadPublish(error: WireError)
    | ForeignTopic
    | BadSample(why: SampleError)
    | NotEnrolled
    | Unexpected

  datatype Outcome = Outcome(events: seq<Event>, end: End)

  /** What one packet does, and how it ends the session if it does. */
  datatype Handled = Handled(events: seq<Event>, end: Option<End>)

  function TopicFor(id: Str): Str {
    Ascii("fleet/") + id + Ascii("/telemetry")
  }

  /** The checks of `record` before the store is asked. */
  function Accept(decode: Str -> Option<Sample>, payload: Str): Result<Sample, SampleError> {
    match decode(payload)
    case None => Err(Undecodable)
    case Some(s) =>
      if s.metric == [] || MAX_METRIC_NAME < |s.metric| then Err(UnusableMetric)
      else if !s.value.Finite? then Err(NonFinite)
      else Ok(s)
  }

  function ReplyPacket(reply: Reply): Packet {
    match reply
    case ConnAck(code) => Packet(CONNACK, 0, [0, code])
    case PubAck(id) => Packet(PUBACK, 0, Be16(id))
    case PingResp => Packet(PINGRESP, 0, [])
  }

  /** Every reply the server ever sends, byte for byte (sections 3.2, 3.4 and 3.13). */
  lemma ReplyBytes(code: Byte, id: UInt16)
    ensures Frame(ReplyPacket(ConnAck(code))) == [0x20, 2, 0, code]
    ensures Frame(ReplyPacket(PubAck(id))) == [0x40, 2, id / 256, id % 256]
    ensures Frame(ReplyPacket(PingResp)) == [0xD0, 0]
  {
    FrameBytes(ReplyPacket(ConnAck(code)));
    FrameBytes(ReplyPacket(PubAck(id)));
    FrameBytes(ReplyPacket(PingResp));
  }

  /** Exactly the payloads that `record` hands to the store, and what is wrong with the others. */
  lemma AcceptExactly(decode: Str -> Option<Sample>, payload: Str, s: Sample)
    ensures Accept(decode, payload) == Ok(s) <==> decode(payload) == Some(s) && 1 <= |s.metric| <= 64 && s.value.Finite?
    ensures Accept(decode, payload) == Err(Undecodable) <==> decode(payload) == None
    ensures decode(payload) == Some(s) ==>
              && (Accept(decode, payload) == Err(UnusableMetric) <==> s.metric == [] || 64 < |s.metric|)
              && (Accept(decode, payload) == Err(NonFinite) <==> 1 <= |s.metric| <= 64 && !s.value.Finite?)
  {
  }

  /** A topic is that of one device, with its id between `fleet/` and `/telemetry`. */
  lemma TopicNamesDevice(a: Str, b: Str)
    ensures TopicFor(a) == TopicFor(b) <==> a == b
    ensures TopicFor(a) == [102, 108, 101, 101, 116, 47] + a + [47, 116, 101, 108, 101, 109, 101, 116, 114, 121]
  {
    assert Ascii("fleet/") == [102, 108, 101, 101, 116, 47];
    assert Ascii("/telemetry") == [47, 116, 101, 108, 101, 109, 101, 116, 114, 121];
    if TopicFor(a) == TopicFor(b) {
      assert |a| == |b|;
      assert TopicFor(a)[6..6 + |a|] == a && TopicFor(b)[6..6 + |b|] == b;
    }
  }

  /** The bytes one event puts on the wire. */
  function EventBytes(e: Event): Str {
    match e
    case Recorded(_, _, _) => []
    case Replied(reply) => Frame(ReplyPacket(reply))
    case Broke(reply, n) =>
      var frame := Frame(ReplyPacket(reply));
      if n < |frame| then frame[..n] else frame
  }

  function Wire(events: seq<Event>): Str {
    if events == [] then [] else EventBytes(events[0]) + Wire(events[1..])
  }

  function WriteCount(events: seq<Event>): nat {
    if events == [] then 0 else (if events[0].Recorded? then 0 else 1) + WriteCount(events[1..])
  }

  function RecordCount(events: seq<Event>): nat {
    if events == [] then 0 else (if events[0].Recorded? then 1 else 0) + RecordCount(events[1..])
  }

  // ----- The code's decisions -----

  function Send(env: Env, write: nat, reply: Reply): Handled {
    match env.write(write)
    case Delivered => Handled([Replied(reply)], None)
    case Broken(n) => Handled([Broke(reply, n)], Some(WriteFailed))
  }

  function HandlePublish(env: Env, id: Str, enrolled: bool, p: Packet, write: nat, record: nat): Handled {
    match DecodePublish(p.flags, p.body)
    case Err(e) => Handled([], Some(BadPublish(e)))
    case Ok(pub) =>
      if pub.topic != TopicFor(id) then Handled([], Some(ForeignTopic))
      else
        match Accept(env.decode, pub.payload)
        case Err(why) => Handled([], Some(BadSample(why)))
        case Ok(sample) =>
          if !enrolled then Handled([], Some(NotEnrolled))
          else if pub.qos == 1 then
            var sent := Send(env, write, PubAck(pub.packetId));
            sent.(events := [Recorded(sample, env.now(record), Some(pub.packetId))] + sent.events)
          else Handled([Recorded(sample, env.now(record), None)], None)
  }

  function HandlePacket(env: Env, id: Str, enrolled: bool, p: Packet, write: nat, record: nat): Handled {
    if p.kind == PUBLISH then HandlePublish(env, id, enrolled, p, write, record)
    else if p.kind == PINGREQ then Send(env, write, PingResp)
    else if p.kind == DISCONNECT then Handled([], Some(Disconnected))
    else Handled([], Some(Unexpected))
  }

  function Prepend(events: seq<Event>, o: Outcome): Outcome {
    o.(events := events + o.events)
  }

  /** What the session of one device does with a packet, given how many writes and records came
    before. */
  type Handler = (Packet, nat, nat) -> Handled

  function HandlerOf(env: Env, id: Str, enrolled: bool): Handler {
    (p: Packet, write: nat, record: nat) => HandlePacket(env, id, enrolled, p, write, record)
  }

  /** `handle` is the handler of this device's session. */
  ghost predicate Serves(handle: Handler, env: Env, id: Str, enrolled: bool) {
    forall p, write, record :: ServesAt(handle, env, id, enrolled, p, write, record)
  }

  predicate ServesAt(handle: Handler, env: Env, id: Str, enrolled: bool, p: Packet, write: nat, record: nat) {
    handle(p, write, record) == HandlePacket(env, id, enrolled, p, write, record)
  }

  lemma HandlerServes(env: Env, id: Str, enrolled: bool)
    ensures Serves(HandlerOf(env, id, enrolled), env, id, enrolled)
  {
  }

  /** The loop once the CONNECT was accepted, on a stream that holds the packets `ps` and then fails
    to yield another with `last`. */
  function Loop(handle: Handler, deadline: nat -> bool, ps: seq<Packet>, last: WireError,
                read: nat, write: nat, record: nat): Outcome
  {
    if !deadline(read) then Outcome([], DeadlineFailed)
    else if ps == [] then Outcome([], ReadFailed(last))
    else
      var h := handle(ps[0], write, record);
      match h.end
      case Some(end) => Outcome(h.events, end)
      case None =>
        Prepend(h.events, Loop(handle, deadline, ps[1..], last,
                               read + 1, write + WriteCount(h.events), record + RecordCount(h.events)))
  }

  function RefusalCode(e: WireError): Byte {
    if e == CredentialsInConnect then CONN_REFUSED_NOT_AUTHED else CONN_REFUSED_BAD_PROTOCOL
  }

  /** The answer to a CONNECT body, and how it ends the session if it does. */
  function Greet(env: Env, body: Str): Handled {
    match DecodeConnect(body)
    case Err(e) => Handled(Send(env, 0, ConnAck(RefusalCode(e))).events, Some(ConnectRefused(e)))
    case Ok(_) => Send(env, 0, ConnAck(CONN_ACCEPTED))
  }

  function OnPackets(env: Env, id: Str, enrolled: bool, ps: seq<Packet>, last: WireError): Outcome {
    if !env.deadline(0) then Outcome([], DeadlineFailed)
    else if ps == [] then Outcome([], ReadFailed(last))
    else if ps[0].kind != CONNECT then Outcome([], NotAConnect)
    else
      var greeting := Greet(env, ps[0].body);
      match greeting.end
      case Some(end) => Outcome(greeting.events, end)
      case None =>
        Prepend(greeting.events, Loop(HandlerOf(env, id, enrolled), env.deadline, ps[1..], last, 1, 1, 0))
  }

  /** The whole session on a connection that delivers the bytes `s`. */
  function RunSession(env: Env, id: Str, enrolled: bool, s: Str): Outcome {
    OnPackets(env, id, enrolled, Packets(s), EndError(s))
  }

  // ----- What a session should do, by the list of packets it is sent -----

  /** A PUBLISH to the device's own topic that carries an acceptable sample. */
  predicate IsTelemetry(decode: Str -> Option<Sample>, id: Str, p: Packet) {
    p.kind == PUBLISH && DecodePublish(p.flags, p.body).Ok? &&
    var pub := DecodePublish(p.flags, p.body).value;
    pub.topic == TopicFor(id) && Accept(decode, pub.payload).Ok?
  }

  predicate IsFine(decode: Str -> Option<Sample>, id: Str, p: Packet) {
    p.kind == PINGREQ || IsTelemetry(decode, id, p)
  }

  function FineFor(decode: Str -> Option<Sample>, id: Str): Packet -> bool {
    p => IsFine(decode, id, p)
  }

  /** How many packets come before the first that is neither acceptable telemetry nor a ping. */
  function FinePrefix(fine: Packet -> bool, ps: seq<Packet>): (n: nat)
    ensures n <= |ps|
  {
    if ps == [] || !fine(ps[0]) then 0 else 1 + FinePrefix(fine, ps[1..])
  }

  /** What an acceptable packet is due: a ping is answered; a sample is recorded, and at QoS 1 then
    acknowledged. `record` readings came before it. */
  type Dues = (Packet, nat) -> seq<Event>

  function DueFor(env: Env, id: Str): Dues {
    (p: Packet, record: nat) =>
      if !IsTelemetry(env.decode, id, p) then [Replied(PingResp)]
      else
        var pub := DecodePublish(p.flags, p.body).value;
        var sample := Accept(env.decode, pub.payload).value;
        if pub.qos == 1 then [Recorded(sample, env.now(record), Some(pub.packetId)), Replied(PubAck(pub.packetId))]
        else [Recorded(sample, env.now(record), None)]
  }

  /** What is due for the first `m` packets, in order. */
  function Plan(due: Dues, ps: seq<Packet>, m: nat, record: nat): seq<Event>
    requires m <= |ps|
  {
    if m == 0 then []
    else due(ps[0], record) + Plan(due, ps[1..], m - 1, record + RecordCount(due(ps[0], record)))
  }

  /** The events as they were meant: a write that broke counts as the reply it was for. */
  function Meant(events: seq<Event>): (r: seq<Event>)
    ensures |r| == |events|
    ensures forall i :: 0 <= i < |events| ==>
                          r[i] == if events[i].Broke? then Replied(events[i].reply) else events[i]
  {
    seq(|events|, i requires 0 <= i < |events| => if events[i].Broke? then Replied(events[i].reply) else events[i])
  }

  /** No write broke, except perhaps the last, after which the session ends. */
  predicate BreaksLast(events: seq<Event>, end: End) {
    && (forall i :: 0 <= i < |events| - 1 ==> !events[i].Broke?)
    && (end == WriteFailed <==> events != [] && events[|events| - 1].Broke?)
  }

  predicate Faulted(end: End) {
    end == WriteFailed || end == DeadlineFailed
  }
}
