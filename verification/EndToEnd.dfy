/** From the device's intentions to the store and back: encode, send, run the session, read the
  acknowledgements. */
module EndToEnd {
  import opened Bytes
  import opened Records
  import opened Framing
  import opened Codec
  import opened Session
  import opened SessionTrace
  import opened SessionEffects
  import Varint

  /** What a device wants to do: send a sample, asking for an acknowledgement or not, or ping. */
  datatype Request = Measure(payload: Str, ack: Option<UInt16>) | Ping

  function PublishOf(id: Str, r: Request): Publish
    requires r.Measure?
  {
    match r.ack
    case Some(packetId) => Publish(TopicFor(id), 1, packetId, r.payload)
    case None => Publish(TopicFor(id), 0, 0, r.payload)
  }

  function PacketOf(id: Str, r: Request): Packet {
    if r.Ping? then Packet(PINGREQ, 0, [])
    else
      var (flags, body) := EncodePublish(PublishOf(id, r));
      Packet(PUBLISH, flags, body)
  }

  function PacketsOf(id: Str, rs: seq<Request>): seq<Packet> {
    if rs == [] then [] else [PacketOf(id, rs[0])] + PacketsOf(id, rs[1..])
  }

  /** A request the device can put on the wire and the server has no reason to refuse. */
  predicate Acceptable(decode: Str -> Option<Sample>, id: Str, r: Request) {
    r.Ping? ||
    (&& decode(r.payload).Some?
     && 1 <= |decode(r.payload).value.metric| <= 64
     && decode(r.payload).value.value.Finite?
     && |id| + 16 <= 65535
     && 2 + |id| + 16 + (if r.ack.Some? then 2 else 0) + |r.payload| <= 65536)
  }

  /** The device's side of a connection. */
  function Script(id: Str, c: Connect, rs: seq<Request>): seq<Packet> {
    [Packet(CONNECT, 0, EncodeConnect(c))] + PacketsOf(id, rs) + [Packet(DISCONNECT, 0, [])]
  }

  /** The replies it waits for: a PINGRESP, or a PUBACK with the very id it sent, high byte first. */
  function Answers(rs: seq<Request>): seq<Packet> {
    if rs == [] then []
    else
      (match rs[0]
       case Ping => [Packet(13, 0, [])]
       case Measure(_, Some(id)) => [Packet(4, 0, [id / 256, id % 256])]
       case Measure(_, None) => [])
      + Answers(rs[1..])
  }

  /** The readings it means to leave, stamped by the server's clock. */
  function Intended(env: Env, id: Str, rs: seq<Request>, record: nat): seq<Reading> {
    if rs == [] then []
    else if rs[0].Ping? then Intended(env, id, rs[1..], record)
    else
      match env.decode(rs[0].payload)
      case Some(s) => [Reading(id, s.metric, s.value, s.at, env.now(record))] + Intended(env, id, rs[1..], record + 1)
      case None => Intended(env, id, rs[1..], record + 1)
  }

  ghost predicate Faultless(env: Env) {
    forall i: nat :: env.deadline(i) && env.write(i) == Delivered
  }

  // ----- One request -----

  /** The telemetry a request encodes is what the server decodes. */
  lemma RequestArrives(decode: Str -> Option<Sample>, id: Str, r: Request)
    requires Acceptable(decode, id, r)
    ensures Sendable(PacketOf(id, r)) && IsFine(decode, id, PacketOf(id, r))
    ensures r.Measure? ==>
              var p := PacketOf(id, r);
              IsTelemetry(decode, id, p) && DecodePublish(p.flags, p.body) == Ok(PublishOf(id, r))
  {
    if r.Measure? {
      DecodeEncodePublish(PublishOf(id, r));
    }
  }

  function DueOf(env: Env, r: Request, record: nat): seq<Event> {
    match r
    case Ping => [Replied(PingResp)]
    case Measure(payload, ack) =>
      match Accept(env.decode, payload)
      case Err(_) => []
      case Ok(sample) =>
        if ack.Some? then [Recorded(sample, env.now(record), ack), Replied(PubAck(ack.value))]
        else [Recorded(sample, env.now(record), ack)]
  }

  lemma RequestDue(env: Env, id: Str, r: Request, record: nat)
    requires Acceptable(env.decode, id, r)
    ensures FineFor(env.decode, id)(PacketOf(id, r))
    ensures DueFor(env, id)(PacketOf(id, r), record) == DueOf(env, r, record)
  {
    RequestArrives(env.decode, id, r);
    assert r.Ping? ==> !IsTelemetry(env.decode, id, PacketOf(id, r));
  }

  lemma OneEvent(id: Str, e: Event)
    ensures RecordCount([e]) == (if e.Recorded? then 1 else 0)
    ensures Stored(id, [e]) == StoredBy(id, e)
    ensures AllInFull([e]) == InFull(e)
  {
    assert [e][1..] == [] && InFull(e) + [] == InFull(e);
  }

  lemma TwoEvents(id: Str, a: Event, b: Event)
    ensures RecordCount([a, b]) == RecordCount([a]) + RecordCount([b])
    ensures Stored(id, [a, b]) == Stored(id, [a]) + Stored(id, [b])
    ensures AllInFull([a, b]) == InFull(a) + InFull(b)
  {
    OneEvent(id, a);
    OneEvent(id, b);
    assert [a, b][1..] == [b];
  }

  lemma DueCounts(env: Env, id: Str, r: Request, record: nat)
    requires Acceptable(env.decode, id, r)
    ensures var due := DueOf(env, r, record);
            && RecordCount(due) == (if r.Measure? then 1 else 0)
            && Stored(id, due) ==
               (if r.Ping? then []
                else
                  var s := env.decode(r.payload).value;
                  [Reading(id, s.metric, s.value, s.at, env.now(record))])
            && AllInFull(due) == Answers([r])
  {
    assert [r][1..] == [] && Answers([]) == [];
    if r.Ping? {
      OneEvent(id, Replied(PingResp));
    } else {
      MeasureCounts(id, Accept(env.decode, r.payload).value, env.now(record), r.ack);
    }
  }

  lemma MeasureCounts(id: Str, sample: Sample, at: Time, ack: Option<UInt16>)
    ensures var first := Recorded(sample, at, ack);
            var due := if ack.Some? then [first, Replied(PubAck(ack.value))] else [first];
            && RecordCount(due) == 1
            && Stored(id, due) == [Reading(id, sample.metric, sample.value, sample.at, at)]
            && AllInFull(due) == (if ack.Some? then [Packet(4, 0, [ack.value / 256, ack.value % 256])] else [])
  {
    var first := Recorded(sample, at, ack);
    OneEvent(id, first);
    if ack.Some? {
      OneEvent(id, Replied(PubAck(ack.value)));
      TwoEvents(id, first, Replied(PubAck(ack.value)));
    }
  }

  // ----- All of them -----

  lemma {:induction false} ScriptSendable(decode: Str -> Option<Sample>, id: Str, rs: seq<Request>)
    requires forall r :: r in rs ==> Acceptable(decode, id, r)
    ensures AllSendable(PacketsOf(id, rs))
  {
    if rs != [] {
      RequestArrives(decode, id, rs[0]);
      ScriptSendable(decode, id, rs[1..]);
      ConsSendable(PacketOf(id, rs[0]), PacketsOf(id, rs[1..]));
    }
  }

  lemma ConsSendable(p: Packet, ps: seq<Packet>)
    requires Sendable(p) && AllSendable(ps)
    ensures AllSendable([p] + ps)
  {
    assert ([p] + ps)[1..] == ps;
  }

  lemma {:induction false} AppendSendable(ps: seq<Packet>, p: Packet)
    requires AllSendable(ps) && Sendable(p)
    ensures AllSendable(ps + [p])
  {
    if ps == [] {
      assert ps + [p] == [p] && [p][1..] == [];
    } else {
      AppendSendable(ps[1..], p);
      assert (ps + [p])[1..] == ps[1..] + [p];
    }
  }

  lemma {:induction false} RequestsFine(fine: Packet -> bool, id: Str, rs: seq<Request>, rest: seq<Packet>)
    requires forall r :: r in rs ==> fine(PacketOf(id, r))
    requires rest != [] && !fine(rest[0])
    ensures |PacketsOf(id, rs)| == |rs|
    ensures FinePrefix(fine, PacketsOf(id, rs) + rest) == |rs|
  {
    if rs == [] {
      assert PacketsOf(id, rs) + rest == rest;
    } else {
      RequestsFine(fine, id, rs[1..], rest);
      ConcatAssoc([PacketOf(id, rs[0])], PacketsOf(id, rs[1..]), rest);
      var tail := PacketsOf(id, rs[1..]) + rest;
      assert ([PacketOf(id, rs[0])] + tail)[1..] == tail;
    }
  }

  function DueOfAll(env: Env, rs: seq<Request>, record: nat): seq<Event> {
    if rs == [] then []
    else DueOf(env, rs[0], record) + DueOfAll(env, rs[1..], record + if rs[0].Measure? then 1 else 0)
  }

  lemma {:induction false} PlanOfRequests(env: Env, id: Str, due: Dues, rs: seq<Request>, rest: seq<Packet>,
                                          record: nat)
    requires forall r :: r in rs ==> Acceptable(env.decode, id, r)
    requires forall r, k: nat :: r in rs ==> due(PacketOf(id, r), k) == DueOf(env, r, k)
    ensures |PacketsOf(id, rs)| == |rs|
    ensures Plan(due, PacketsOf(id, rs) + rest, |rs|, record) == DueOfAll(env, rs, record)
  {
    if rs != [] {
      var next := record + if rs[0].Measure? then 1 else 0;
      PlanOfRequests(env, id, due, rs[1..], rest, next);
      ConcatAssoc([PacketOf(id, rs[0])], PacketsOf(id, rs[1..]), rest);
      var tail := PacketsOf(id, rs[1..]) + rest;
      assert ([PacketOf(id, rs[0])] + tail)[1..] == tail;
      DueCounts(env, id, rs[0], record);
    }
  }

  lemma {:induction false} StoredConcat(id: Str, a: seq<Event>, b: seq<Event>)
    ensures Stored(id, a + b) == Stored(id, a) + Stored(id, b)
    ensures AllInFull(a + b) == AllInFull(a) + AllInFull(b)
  {
    if a == [] {
      assert a + b == b;
    } else {
      assert (a + b)[1..] == a[1..] + b;
      StoredConcat(id, a[1..], b);
      ConcatAssoc(InFull(a[0]), AllInFull(a[1..]), AllInFull(b));
      ConcatAssoc(StoredBy(id, a[0]), Stored(id, a[1..]), Stored(id, b));
    }
  }

  lemma {:induction false} DueOfAllEffects(env: Env, id: Str, rs: seq<Request>, record: nat)
    requires forall r :: r in rs ==> Acceptable(env.decode, id, r)
    ensures Stored(id, DueOfAll(env, rs, record)) == Intended(env, id, rs, record)
    ensures AllInFull(DueOfAll(env, rs, record)) == Answers(rs)
  {
    if rs != [] {
      var next := record + if rs[0].Measure? then 1 else 0;
      DueOfAllEffects(env, id, rs[1..], next);
      DueCounts(env, id, rs[0], record);
      StoredConcat(id, DueOf(env, rs[0], record), DueOfAll(env, rs[1..], next));
      AnswersStep(rs);
      assert [] + Intended(env, id, rs[1..], next) == Intended(env, id, rs[1..], next);
    }
  }

  lemma AnswersStep(rs: seq<Request>)
    requires rs != []
    ensures Answers(rs) == Answers([rs[0]]) + Answers(rs[1..])
  {
    assert [rs[0]][1..] == [] && Answers([]) == [];
  }

  // ----- No faults -----

  ghost predicate NeverFails(handle: Handler) {
    forall p, write, record :: NoFault(handle, p, write, record)
  }

  predicate NoFault(handle: Handler, p: Packet, write: nat, record: nat) {
    var end := handle(p, write, record).end; end.Some? ==> !Faulted(end.value)
  }

  lemma HandlerNeverFails(env: Env, id: Str)
    requires Faultless(env)
    ensures NeverFails(HandlerOf(env, id, true))
  {
    forall p, write, record
      ensures NoFault(HandlerOf(env, id, true), p, write, record)
    {
      assert env.write(write) == Delivered;
    }
  }

  lemma {:induction false} LoopNeverFails(handle: Handler, deadline: nat -> bool, ps: seq<Packet>, last: WireError,
                                          read: nat, write: nat, record: nat)
    requires NeverFails(handle) && forall i: nat :: deadline(i)
    ensures !Faulted(Loop(handle, deadline, ps, last, read, write, record).end)
    decreases |ps|
  {
    if ps != [] {
      assert NoFault(handle, ps[0], write, record);
      var h := handle(ps[0], write, record);
      LoopNeverFails(handle, deadline, ps[1..], last, read + 1,
                     write + WriteCount(h.events), record + RecordCount(h.events));
    }
  }

  lemma SessionNeverFails(env: Env, id: Str, s: Str)
    requires Faultless(env) && OpensProperly(Packets(s))
    ensures !Faulted(RunSession(env, id, true, s).end)
  {
    HandlerNeverFails(env, id);
    assert env.write(0) == Delivered;
    LoopNeverFails(HandlerOf(env, id, true), env.deadline, Packets(s)[1..], EndError(s), 1, 1, 0);
  }

  // ----- The device's bytes -----

  /** What the device puts on the wire for one request: a PUBLISH to its own topic, or a PINGREQ. */
  lemma RequestBytes(decode: Str -> Option<Sample>, id: Str, r: Request)
    requires Acceptable(decode, id, r)
    ensures var n := |id| + 16;
            Frame(PacketOf(id, r)) ==
            match r
            case Ping => [0xC0, 0]
            case Measure(payload, Some(k)) =>
              [0x32] + Varint.Encode(4 + n + |payload|)
              + ([n / 256, n % 256] + TopicFor(id) + [k / 256, k % 256] + payload)
            case Measure(payload, None) =>
              [0x30] + Varint.Encode(2 + n + |payload|) + ([n / 256, n % 256] + TopicFor(id) + [] + payload)
  {
    if r.Ping? {
      FrameBytes(PacketOf(id, r));
    } else {
      PublishFrame(PublishOf(id, r));
    }
  }

  lemma PublishFrame(p: Publish)
    requires p.qos <= 1 && |p.topic| <= 65535
    ensures var body := [|p.topic| / 256, |p.topic| % 256] + p.topic
                        + (if p.qos == 1 then [p.packetId / 256, p.packetId % 256] else []) + p.payload;
            Frame(Packet(PUBLISH, EncodePublish(p).0, EncodePublish(p).1)) ==
            [0x30 + 2 * p.qos] + Varint.Encode(|body|) + body
  {
    PublishBytes(p);
  }

  /** How the device opens and closes. */
  lemma ScriptBytes(c: Connect)
    requires (c.level == 0 || c.level == 4) && |c.clientId| <= 65524
    ensures Frame(Packet(CONNECT, 0, EncodeConnect(c))) ==
            [0x10] + Varint.Encode(12 + |c.clientId|) + EncodeConnect(c)
    ensures Frame(Packet(DISCONNECT, 0, [])) == [0xE0, 0]
  {
    ConnectBytes(c);
    FrameBytes(Packet(DISCONNECT, 0, []));
  }

  // ----- The main theorem -----

  lemma ScriptPackets(env: Env, id: Str, c: Connect, rs: seq<Request>, trailing: Str)
    requires (c.level == 0 || c.level == 4) && |c.clientId| <= 65524
    requires forall r :: r in rs ==> Acceptable(env.decode, id, r)
    ensures var ps := Packets(FrameAll(Script(id, c, rs)) + trailing);
            OpensProperly(ps) && ps[1..] == PacketsOf(id, rs) + ([Packet(DISCONNECT, 0, [])] + Packets(trailing))
  {
    var connect, bye := Packet(CONNECT, 0, EncodeConnect(c)), Packet(DISCONNECT, 0, []);
    ScriptSendable(env.decode, id, rs);
    ConsSendable(connect, PacketsOf(id, rs));
    AppendSendable([connect] + PacketsOf(id, rs), bye);
    PacketsFrameAll(Script(id, c, rs), trailing);
    DecodeEncodeConnect(c);
    ConcatAssoc([connect] + PacketsOf(id, rs), [bye], Packets(trailing));
    ConcatAssoc([connect], PacketsOf(id, rs), [bye] + Packets(trailing));
  }

  /** For every device, every acceptable CONNECT and every list of acceptable samples and pings: the
    session that reads their encodings, and a DISCONNECT, ends in order after exactly what the requests
    are due, whatever bytes follow. */
  lemma ScriptEvents(env: Env, id: Str, c: Connect, rs: seq<Request>, trailing: Str)
    requires Faultless(env)
    requires (c.level == 0 || c.level == 4) && |c.clientId| <= 65524
    requires forall r :: r in rs ==> Acceptable(env.decode, id, r)
    ensures var o := RunSession(env, id, true, FrameAll(Script(id, c, rs)) + trailing);
            o.end == Disconnected && o.events == [Replied(ConnAck(CONN_ACCEPTED))] + DueOfAll(env, rs, 0)
  {
    var s := FrameAll(Script(id, c, rs)) + trailing;
    var o, ps := RunSession(env, id, true, s), Packets(s);
    var rest := [Packet(DISCONNECT, 0, [])] + Packets(trailing);
    ScriptPackets(env, id, c, rs, trailing);
    SessionNeverFails(env, id, s);
    var m := SessionFollows(env, id, s);
    RequestsPlanned(env, id, rs, rest);
    NothingBroke(o.events, o.end);
  }

  lemma RequestsPlanned(env: Env, id: Str, rs: seq<Request>, rest: seq<Packet>)
    requires rest != [] && rest[0].kind == DISCONNECT
    requires forall r :: r in rs ==> Acceptable(env.decode, id, r)
    ensures |PacketsOf(id, rs)| == |rs|
    ensures FinePrefix(FineFor(env.decode, id), PacketsOf(id, rs) + rest) == |rs|
    ensures Plan(DueFor(env, id), PacketsOf(id, rs) + rest, |rs|, 0) == DueOfAll(env, rs, 0)
  {
    forall r | r in rs
      ensures FineFor(env.decode, id)(PacketOf(id, r))
    {
      RequestDue(env, id, r, 0);
    }
    forall r, k: nat | r in rs
      ensures DueFor(env, id)(PacketOf(id, r), k) == DueOf(env, r, k)
    {
      RequestDue(env, id, r, k);
    }
    RequestsFine(FineFor(env.decode, id), id, rs, rest);
    PlanOfRequests(env, id, DueFor(env, id), rs, rest, 0);
  }

  lemma NothingBroke(events: seq<Event>, end: End)
    requires BreaksLast(events, end) && !Faulted(end)
    ensures Meant(events) == events && BreaksOnlyLast(events)
  {
  }

  /** End to end: the device's readings become the last 1024 of the old ones followed by the samples in
    the order they were sent, nothing else in the store changes, and what the server wrote parses back
    to CONNACK and then the acknowledgements and ping responses in the order of the requests. */
  lemma TelemetryArrives(env: Env, st: State, id: Str, c: Connect, rs: seq<Request>, trailing: Str)
    requires Faultless(env) && st.Valid() && id in st.devices
    requires (c.level == 0 || c.level == 4) && |c.clientId| <= 65524
    requires forall r :: r in rs ==> Acceptable(env.decode, id, r)
    ensures var o := RunSession(env, id, true, FrameAll(Script(id, c, rs)) + trailing);
            && o.end == Disconnected
            && After(st, id, o.events).ReadingsFor(id) ==
               LastN(st.ReadingsFor(id) + Intended(env, id, rs, 0), 1024)
            && OnlyOwnDevice(st, After(st, id, o.events), id)
            && Packets(Wire(o.events)) == [Packet(2, 0, [0, 0])] + Answers(rs)
  {
    var o := RunSession(env, id, true, FrameAll(Script(id, c, rs)) + trailing);
    ScriptEffects(env, id, c, rs, trailing);
    SessionStores(st, id, o.events);
    WireReadsBack(o.events);
  }

  lemma ScriptEffects(env: Env, id: Str, c: Connect, rs: seq<Request>, trailing: Str)
    requires Faultless(env)
    requires (c.level == 0 || c.level == 4) && |c.clientId| <= 65524
    requires forall r :: r in rs ==> Acceptable(env.decode, id, r)
    ensures var o := RunSession(env, id, true, FrameAll(Script(id, c, rs)) + trailing);
            && o.end == Disconnected && BreaksOnlyLast(o.events)
            && Stored(id, o.events) == Intended(env, id, rs, 0)
            && AllInFull(o.events) == [Packet(2, 0, [0, 0])] + Answers(rs)
  {
    ScriptEvents(env, id, c, rs, trailing);
    GreetedEffects(env, id, rs);
  }

  lemma GreetedEffects(env: Env, id: Str, rs: seq<Request>)
    requires forall r :: r in rs ==> Acceptable(env.decode, id, r)
    ensures var events := [Replied(ConnAck(CONN_ACCEPTED))] + DueOfAll(env, rs, 0);
            && BreaksOnlyLast(events)
            && Stored(id, events) == Intended(env, id, rs, 0)
            && AllInFull(events) == [Packet(2, 0, [0, 0])] + Answers(rs)
  {
    DueOfAllEffects(env, id, rs, 0);
    HelloEffects(id, DueOfAll(env, rs, 0));
    DueNeverBreaks(env, rs, 0);
  }

  /** The same while other sessions and the services use the store: whatever comes between the session's
    records, the readings are those the device meant, in the order it sent them. */
  lemma TelemetryArrivesAmongOthers(env: Env, st: State, id: Str, c: Connect, rs: seq<Request>, trailing: Str,
                                    ops: seq<Op>)
    requires Faultless(env) && st.Valid() && id in st.devices
    requires (c.level == 0 || c.level == 4) && |c.clientId| <= 65524
    requires forall r :: r in rs ==> Acceptable(env.decode, id, r)
    ensures var events := RunSession(env, id, true, FrameAll(Script(id, c, rs)) + trailing).events;
            RecordsOf(ops, id) == StoreOps(id, events) ==>
              Run(st, ops).ReadingsFor(id) == LastN(st.ReadingsFor(id) + Intended(env, id, rs, 0), 1024)
  {
    var events := RunSession(env, id, true, FrameAll(Script(id, c, rs)) + trailing).events;
    ScriptEffects(env, id, c, rs, trailing);
    if RecordsOf(ops, id) == StoreOps(id, events) {
      SessionAmongOthers(st, ops, id, events);
    }
  }

  lemma HelloEffects(id: Str, events: seq<Event>)
    ensures var hello := Replied(ConnAck(CONN_ACCEPTED));
            && Stored(id, [hello] + events) == Stored(id, events)
            && AllInFull([hello] + events) == [Packet(2, 0, [0, 0])] + AllInFull(events)
  {
    var hello := Replied(ConnAck(CONN_ACCEPTED));
    assert ([hello] + events)[1..] == events;
    assert [] + Stored(id, events) == Stored(id, events);
  }

  lemma {:induction false} DueNeverBreaks(env: Env, rs: seq<Request>, record: nat)
    ensures forall e :: e in DueOfAll(env, rs, record) ==> !e.Broke?
  {
    if rs != [] {
      DueNeverBreaks(env, rs[1..], record + if rs[0].Measure? then 1 else 0);
    }
  }

  /** `ReadConnAck`: a CONNACK of at most 8 bytes, and its return code. */
  function ReadConnAck(s: Str): Result<Byte, WireError> {
    match Parse(s, 8)
    case Failed(e) => Err(e)
    case Got(p, _) => if p.kind != CONNACK || |p.body| != 2 then Err(Malformed) else Ok(p.body[1])
  }

  /** Whatever follows it, the device reads the return code the server greeted it with. */
  lemma DeviceReadsGreeting(code: Byte, events: seq<Event>)
    requires events != [] && events[0] == Replied(ConnAck(code))
    ensures ReadConnAck(Wire(events)) == Ok(code)
  {
    ParseFrame(ReplyPacket(ConnAck(code)), Wire(events[1..]), 8);
  }
}
