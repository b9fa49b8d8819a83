/** What every session does, whatever bytes arrive and whichever writes fail. */
module SessionTrace {
  import opened Bytes
  import opened Records
  import opened Framing
  import opened Codec
  import opened Session

  // ----- One packet -----

  /** The handler does what is due for an acceptable packet and goes on, unless its write breaks; at any
    other packet it stops without doing anything. */
  predicate Duty(handle: Handler, fine: Packet -> bool, due: Dues, p: Packet, write: nat, record: nat) {
    var h := handle(p, write, record);
    && (fine(p) ==>
          && Meant(h.events) == due(p, record) == Meant(due(p, record))
          && (h.end == None ==> h.events == due(p, record))
          && (h.end.Some? ==> h.end == Some(WriteFailed)))
    && (!fine(p) ==>
          && h.events == [] && h.end.Some? && !Faulted(h.end.value)
          && (h.end.value == Disconnected <==> p.kind == DISCONNECT))
    && BreaksLast(h.events, if h.end.Some? then h.end.value else Disconnected)
  }

  ghost predicate Dutiful(handle: Handler, fine: Packet -> bool, due: Dues) {
    forall p, write, record :: Duty(handle, fine, due, p, write, record)
  }

  lemma HandlerIsDutiful(env: Env, id: Str)
    ensures Dutiful(HandlerOf(env, id, true), FineFor(env.decode, id), DueFor(env, id))
  {
    forall p, write, record
      ensures Duty(HandlerOf(env, id, true), FineFor(env.decode, id), DueFor(env, id), p, write, record)
    {
      if IsFine(env.decode, id, p) {
        HandleFine(env, id, p, write, record);
      } else {
        HandleOther(env, id, p, write, record);
      }
    }
  }

  lemma HandleFine(env: Env, id: Str, p: Packet, write: nat, record: nat)
    requires IsFine(env.decode, id, p)
    ensures var h := HandlePacket(env, id, true, p, write, record);
            var due := DueFor(env, id)(p, record);
            && Meant(h.events) == due == Meant(due)
            && (h.end == None ==> h.events == due)
            && (h.end.Some? ==> h.end == Some(WriteFailed))
            && BreaksLast(h.events, if h.end.Some? then h.end.value else Disconnected)
  {
    var h := HandlePacket(env, id, true, p, write, record);
    var due := DueFor(env, id)(p, record);
    if IsTelemetry(env.decode, id, p) {
      var pub := DecodePublish(p.flags, p.body).value;
      var first := Recorded(Accept(env.decode, pub.payload).value, env.now(record),
                            if pub.qos == 1 then Some(pub.packetId) else None);
      assert due == if pub.qos == 1 then [first, Replied(PubAck(pub.packetId))] else [first];
      assert h.events[0] == first && |h.events| == |due|;
    } else {
      assert due == [Replied(PingResp)];
    }
    assert Meant(due) == due && Meant(h.events) == due;
  }

  lemma HandleOther(env: Env, id: Str, p: Packet, write: nat, record: nat)
    requires !IsFine(env.decode, id, p)
    ensures var h := HandlePacket(env, id, true, p, write, record);
            && h.events == [] && h.end.Some? && !Faulted(h.end.value)
            && (h.end.value == Disconnected <==> p.kind == DISCONNECT)
  {
  }

  // ----- The loop -----

  lemma MeantConcat(a: seq<Event>, b: seq<Event>)
    ensures Meant(a + b) == Meant(a) + Meant(b)
  {
  }

  lemma MeantItself(events: seq<Event>)
    requires Meant(events) == events
    ensures forall i :: 0 <= i < |events| ==> !events[i].Broke?
  {
    forall i | 0 <= i < |events|
      ensures !events[i].Broke?
    {
      assert Meant(events)[i] == events[i];
    }
  }

  lemma BreaksLastCons(a: seq<Event>, b: seq<Event>, end: End)
    requires BreaksLast(b, end) && Meant(a) == a
    ensures BreaksLast(a + b, end)
  {
    MeantItself(a);
  }

  /** The loop carries out the plan of the packets that reach it, up to some packet `m`: all of those
    before the first unacceptable one, unless the transport fails earlier. */
  ghost predicate Follows(fine: Packet -> bool, due: Dues, ps: seq<Packet>, record: nat, o: Outcome, m: nat) {
    var n := FinePrefix(fine, ps);
    && m <= n
    && Meant(o.events) == Plan(due, ps, m, record)
    && (!Faulted(o.end) ==> m == n)
    && BreaksLast(o.events, o.end)
    && (o.end == Disconnected <==> !Faulted(o.end) && n < |ps| && ps[n].kind == DISCONNECT)
  }

  lemma FollowsOn(fine: Packet -> bool, due: Dues, ps: seq<Packet>, record: nat, h: Handled, rest: Outcome, m: nat)
    requires ps != [] && fine(ps[0]) && h.events == due(ps[0], record) == Meant(due(ps[0], record))
    requires Follows(fine, due, ps[1..], record + RecordCount(h.events), rest, m)
    ensures Follows(fine, due, ps, record, Prepend(h.events, rest), 1 + m)
  {
    MeantConcat(h.events, rest.events);
    BreaksLastCons(h.events, rest.events, rest.end);
  }

  lemma FollowsLast(handle: Handler, fine: Packet -> bool, due: Dues, deadline: nat -> bool,
                    ps: seq<Packet>, last: WireError, read: nat, write: nat, record: nat, o: Outcome)
    returns (m: nat)
    requires o == Loop(handle, deadline, ps, last, read, write, record)
    requires Dutiful(handle, fine, due)
    requires deadline(read) && ps != [] ==> handle(ps[0], write, record).end.Some?
    ensures Follows(fine, due, ps, record, o, m)
  {
    m := if deadline(read) && ps != [] && fine(ps[0]) then 1 else 0;
    if deadline(read) && ps != [] {
      assert Duty(handle, fine, due, ps[0], write, record);
      var d := due(ps[0], record);
      assert d + [] == d;
    }
  }

  lemma LoopGoesOn(handle: Handler, fine: Packet -> bool, due: Dues, deadline: nat -> bool,
                   ps: seq<Packet>, last: WireError, read: nat, write: nat, record: nat)
    returns (h: Handled, rest: Outcome)
    requires Dutiful(handle, fine, due)
    requires deadline(read) && ps != [] && handle(ps[0], write, record).end.None?
    ensures h == handle(ps[0], write, record)
    ensures rest == Loop(handle, deadline, ps[1..], last, read + 1,
                         write + WriteCount(h.events), record + RecordCount(h.events))
    ensures Loop(handle, deadline, ps, last, read, write, record) == Prepend(h.events, rest)
    ensures fine(ps[0]) && h.events == due(ps[0], record) == Meant(due(ps[0], record))
  {
    h := handle(ps[0], write, record);
    rest := Loop(handle, deadline, ps[1..], last, read + 1,
                 write + WriteCount(h.events), record + RecordCount(h.events));
    assert Duty(handle, fine, due, ps[0], write, record);
  }

  lemma {:induction false} LoopFollows(handle: Handler, fine: Packet -> bool, due: Dues, deadline: nat -> bool,
                                       ps: seq<Packet>, last: WireError, read: nat, write: nat, record: nat, o: Outcome)
    returns (m: nat)
    requires Dutiful(handle, fine, due)
    requires o == Loop(handle, deadline, ps, last, read, write, record)
    ensures Follows(fine, due, ps, record, o, m)
    decreases |ps|
  {
    if deadline(read) && ps != [] && handle(ps[0], write, record).end.None? {
      var h, rest := LoopGoesOn(handle, fine, due, deadline, ps, last, read, write, record);
      var more := LoopFollows(handle, fine, due, deadline, ps[1..], last, read + 1,
                              write + WriteCount(h.events), record + RecordCount(h.events), rest);
      FollowsOn(fine, due, ps, record, h, rest, more);
      m := 1 + more;
    } else {
      m := FollowsLast(handle, fine, due, deadline, ps, last, read, write, record, o);
    }
  }

  // ----- The session -----

  /** The stream opens with a CONNECT that `DecodeConnect` accepts. */
  predicate OpensProperly(ps: seq<Packet>) {
    ps != [] && ps[0].kind == CONNECT && DecodeConnect(ps[0].body).Ok?
  }

  /** Nothing is recorded and at most one refusal sent: 5 for credentials, 1 for any other fault. */
  predicate TurnedAway(ps: seq<Packet>, o: Outcome) {
    && |o.events| <= 1 && RecordCount(o.events) == 0 && o.end != Disconnected
    && (o.events != [] ==>
          && ps != [] && ps[0].kind == CONNECT
          && Meant(o.events) ==
             [Replied(ConnAck(if DecodeConnect(ps[0].body) == Err(CredentialsInConnect) then 5 else 1))])
  }

  /** CONNACK 0, then what is due for the next `m` packets: all before the first unacceptable one, unless
    the transport failed. */
  ghost predicate Attended(fine: Packet -> bool, due: Dues, ps: seq<Packet>, o: Outcome, m: nat)
    requires ps != []
  {
    var n := FinePrefix(fine, ps[1..]);
    && (o.events != [] ==>
          && m <= n
          && Meant(o.events) == [Replied(ConnAck(0))] + Plan(due, ps[1..], m, 0)
          && (!Faulted(o.end) ==> m == n))
    && BreaksLast(o.events, o.end)
    && (!Faulted(o.end) ==> o.events != [])
    && (o.end == Disconnected <==> !Faulted(o.end) && n < |ps| - 1 && ps[1 + n].kind == DISCONNECT)
  }

  lemma NotOpened(env: Env, id: Str, ps: seq<Packet>, last: WireError)
    requires !OpensProperly(ps)
    ensures TurnedAway(ps, OnPackets(env, id, true, ps, last))
  {
  }

  lemma Opened(env: Env, id: Str, ps: seq<Packet>, last: WireError) returns (m: nat)
    requires OpensProperly(ps)
    ensures Attended(FineFor(env.decode, id), DueFor(env, id), ps, OnPackets(env, id, true, ps, last), m)
  {
    var hello := Send(env, 0, ConnAck(CONN_ACCEPTED));
    if !env.deadline(0) || hello.end.Some? {
      assert Meant(hello.events) == [Replied(ConnAck(CONN_ACCEPTED))] + [];
      m := 0;
    } else {
      var handle := HandlerOf(env, id, true);
      HandlerIsDutiful(env, id);
      var loop := Loop(handle, env.deadline, ps[1..], last, 1, 1, 0);
      m := LoopFollows(handle, FineFor(env.decode, id), DueFor(env, id), env.deadline, ps[1..], last, 1, 1, 0, loop);
      MeantConcat(hello.events, loop.events);
      assert Meant(hello.events) == hello.events;
      BreaksLastCons(hello.events, loop.events, loop.end);
    }
  }

  /** For every byte stream and every pattern of failures: a session whose stream does not open with an
    acceptable CONNECT is turned away; any other greets and then does exactly what is due for its
    packets in order, one by one, up to the first that is neither telemetry of its own nor a ping, or up
    to the first transport failure. */
  lemma SessionFollows(env: Env, id: Str, s: Str) returns (m: nat)
    ensures var o := RunSession(env, id, true, s);
            var ps := Packets(s);
            if OpensProperly(ps) then Attended(FineFor(env.decode, id), DueFor(env, id), ps, o, m)
            else TurnedAway(ps, o)
  {
    m := 0;
    if OpensProperly(Packets(s)) {
      m := Opened(env, id, Packets(s), EndError(s));
    } else {
      NotOpened(env, id, Packets(s), EndError(s));
    }
  }

  // ----- What a recorded reading proves -----

  /** The event records the acceptable sample of this PUBLISH to the device's own topic, and owes an
    acknowledgement exactly if the message asked for one. */
  predicate Justifies(decode: Str -> Option<Sample>, id: Str, p: Packet, e: Event) {
    && e.Recorded? && p.kind == 3 && DecodePublish(p.flags, p.body).Ok?
    && var pub := DecodePublish(p.flags, p.body).value;
       && pub.topic == Ascii("fleet/") + id + Ascii("/telemetry")
       && decode(pub.payload) == Some(e.sample)
       && 1 <= |e.sample.metric| <= 64 && e.sample.value.Finite?
       && e.owed == if pub.qos == 1 then Some(pub.packetId) else None
  }

  lemma HandleJustifies(env: Env, id: Str, enrolled: bool, p: Packet, write: nat, record: nat, e: Event)
    requires e in HandlePacket(env, id, enrolled, p, write, record).events && e.Recorded?
    ensures enrolled && Justifies(env.decode, id, p, e) && e.at == env.now(record)
  {
  }

  ghost predicate RecordsJustly(handle: Handler, decode: Str -> Option<Sample>, id: Str, enrolled: bool) {
    forall p, write, record, e ::
      e in handle(p, write, record).events && e.Recorded? ==> enrolled && Justifies(decode, id, p, e)
  }

  lemma {:induction false} LoopJustifies(handle: Handler, decode: Str -> Option<Sample>, id: Str, enrolled: bool,
                                         deadline: nat -> bool, ps: seq<Packet>, last: WireError,
                                         read: nat, write: nat, record: nat, e: Event)
    returns (p: Packet)
    requires RecordsJustly(handle, decode, id, enrolled)
    requires e in Loop(handle, deadline, ps, last, read, write, record).events && e.Recorded?
    ensures enrolled && p in ps && Justifies(decode, id, p, e)
    decreases |ps|
  {
    var h := handle(ps[0], write, record);
    if e in h.events {
      p := ps[0];
    } else {
      p := LoopJustifies(handle, decode, id, enrolled, deadline, ps[1..], last, read + 1,
                         write + WriteCount(h.events), record + RecordCount(h.events), e);
    }
  }

  /** For every byte stream and every pattern of failures: whatever a session records is an acceptable
    sample that came in a PUBLISH to the device's own topic, after an accepted CONNECT, from an enrolled
    device. */
  lemma EveryRecord(env: Env, id: Str, enrolled: bool, s: Str, e: Event) returns (p: Packet)
    requires e in RunSession(env, id, enrolled, s).events && e.Recorded?
    ensures enrolled && OpensProperly(Packets(s)) && p in Packets(s)[1..] && Justifies(env.decode, id, p, e)
  {
    var handle, ps := HandlerOf(env, id, enrolled), Packets(s);
    forall q, write, record, f | f in handle(q, write, record).events && f.Recorded?
      ensures enrolled && Justifies(env.decode, id, q, f)
    {
      HandleJustifies(env, id, enrolled, q, write, record, f);
    }
    p := LoopJustifies(handle, env.decode, id, enrolled, env.deadline, ps[1..], EndError(s), 1, 1, 0, e);
  }

  // ----- Acknowledgements (section 4.6 of MQTT 3.1.1) -----

  /** The packet ids of the QoS 1 messages recorded, in order. */
  function Owed(events: seq<Event>): seq<UInt16> {
    if events == [] then [] else Owed(events[..|events| - 1]) + OwedBy(events[|events| - 1])
  }

  function OwedBy(e: Event): seq<UInt16> {
    match e
    case Recorded(_, _, Some(id)) => [id]
    case _ => []
  }

  /** The packet ids acknowledged, in order. */
  function Acked(events: seq<Event>): seq<UInt16> {
    if events == [] then [] else Acked(events[..|events| - 1]) + AckedBy(events[|events| - 1])
  }

  function AckedBy(e: Event): seq<UInt16> {
    match e
    case Replied(PubAck(id)) => [id]
    case _ => []
  }

  /** At this moment every acknowledgement sent was for a message already recorded, they went out in the
    order of the messages, and at most one is outstanding. */
  predicate Orderly(events: seq<Event>) {
    Acked(events) <= Owed(events) && |Owed(events)| <= |Acked(events)| + 1
  }

  ghost predicate AlwaysOrderly(events: seq<Event>) {
    forall i :: 0 <= i <= |events| ==> Orderly(events[..i])
  }

  lemma OwedConcat(a: seq<Event>, b: seq<Event>)
    ensures Owed(a + b) == Owed(a) + Owed(b) && Acked(a + b) == Acked(a) + Acked(b)
  {
    OnlyOwedConcat(a, b);
    OnlyAckedConcat(a, b);
  }

  lemma FrontOfSum(a: seq<Event>, b: seq<Event>)
    requires b != []
    ensures var n := |a + b| - 1;
            (a + b)[..n] == a + b[..|b| - 1] && (a + b)[n] == b[|b| - 1]
  {
  }

  lemma {:induction false} OnlyOwedConcat(a: seq<Event>, b: seq<Event>)
    ensures Owed(a + b) == Owed(a) + Owed(b)
  {
    if b == [] {
      assert a + b == a;
    } else {
      FrontOfSum(a, b);
      OnlyOwedConcat(a, b[..|b| - 1]);
      ConcatAssoc(Owed(a), Owed(b[..|b| - 1]), OwedBy(b[|b| - 1]));
    }
  }

  lemma {:induction false} OnlyAckedConcat(a: seq<Event>, b: seq<Event>)
    ensures Acked(a + b) == Acked(a) + Acked(b)
  {
    if b == [] {
      assert a + b == a;
    } else {
      FrontOfSum(a, b);
      OnlyAckedConcat(a, b[..|b| - 1]);
      ConcatAssoc(Acked(a), Acked(b[..|b| - 1]), AckedBy(b[|b| - 1]));
    }
  }

  lemma OrderlyConcat(a: seq<Event>, b: seq<Event>)
    requires Acked(a) == Owed(a) && Orderly(b)
    ensures Orderly(a + b)
  {
    OwedConcat(a, b);
  }

  lemma AlwaysOrderlyConcat(a: seq<Event>, b: seq<Event>)
    requires AlwaysOrderly(a) && Acked(a) == Owed(a) && AlwaysOrderly(b)
    ensures AlwaysOrderly(a + b)
  {
    forall i | 0 <= i <= |a + b|
      ensures Orderly((a + b)[..i])
    {
      if i <= |a| {
        assert (a + b)[..i] == a[..i];
      } else {
        assert (a + b)[..i] == a + b[..i - |a|];
        OrderlyConcat(a, b[..i - |a|]);
      }
    }
  }

  lemma ShortOrderly(events: seq<Event>)
    requires |events| <= 1 && (events != [] ==> !(events[0].Replied? && events[0].reply.PubAck?))
    ensures AlwaysOrderly(events)
    ensures events == [] || !events[0].Recorded? || events[0].owed == None ==> Acked(events) == Owed(events)
  {
    forall i | 0 <= i <= |events|
      ensures Orderly(events[..i])
    {
      if i == 1 {
        assert events[..1][..0] == [] && events[..1] == events;
      }
    }
    if events != [] {
      assert events[..0] == [];
    }
  }

  lemma OwedOne(e: Event)
    ensures Owed([e]) == OwedBy(e) && Acked([e]) == AckedBy(e)
  {
    assert [e][..0] == [];
    assert [] + OwedBy(e) == OwedBy(e) && [] + AckedBy(e) == AckedBy(e);
  }

  lemma PairOrderly(sample: Sample, at: Time, id: UInt16, last: Event)
    requires last == Replied(PubAck(id)) || (last.Broke? && last.reply == PubAck(id))
    ensures var events := [Recorded(sample, at, Some(id)), last];
            AlwaysOrderly(events) && (last.Replied? ==> Acked(events) == Owed(events))
  {
    var first := Recorded(sample, at, Some(id));
    var both := [first, last];
    OwedOne(first);
    OwedOne(last);
    OwedConcat([first], [last]);
    assert both == [first] + [last];
    assert both[..0] == [] && both[..1] == [first] && both[..2] == both;
    assert Orderly(both[..0]) && Orderly(both[..1]) && Orderly(both[..2]);
  }

  ghost predicate OrderlyHandler(handle: Handler) {
    forall p, write, record ::
      var h := handle(p, write, record);
      AlwaysOrderly(h.events) && (h.end == None ==> Acked(h.events) == Owed(h.events))
  }

  lemma HandleOrderly(env: Env, id: Str, enrolled: bool, p: Packet, write: nat, record: nat)
    ensures var h := HandlePacket(env, id, enrolled, p, write, record);
            AlwaysOrderly(h.events) && (h.end == None ==> Acked(h.events) == Owed(h.events))
  {
    var h := HandlePacket(env, id, enrolled, p, write, record);
    if |h.events| == 2 {
      PairOrderly(h.events[0].sample, h.events[0].at, h.events[0].owed.value, h.events[1]);
      assert h.events == [h.events[0], h.events[1]];
    } else {
      ShortOrderly(h.events);
    }
  }

  lemma HandlerIsOrderly(env: Env, id: Str, enrolled: bool)
    ensures OrderlyHandler(HandlerOf(env, id, enrolled))
  {
    forall p, write, record
      ensures var h := HandlerOf(env, id, enrolled)(p, write, record);
              AlwaysOrderly(h.events) && (h.end == None ==> Acked(h.events) == Owed(h.events))
    {
      HandleOrderly(env, id, enrolled, p, write, record);
    }
  }

  lemma {:induction false} LoopOrderly(handle: Handler, deadline: nat -> bool, ps: seq<Packet>, last: WireError,
                                       read: nat, write: nat, record: nat)
    requires OrderlyHandler(handle)
    ensures AlwaysOrderly(Loop(handle, deadline, ps, last, read, write, record).events)
    decreases |ps|
  {
    if !deadline(read) || ps == [] {
      ShortOrderly([]);
    } else {
      var h := handle(ps[0], write, record);
      if h.end.None? {
        var w, r := write + WriteCount(h.events), record + RecordCount(h.events);
        LoopOrderly(handle, deadline, ps[1..], last, read + 1, w, r);
        AlwaysOrderlyConcat(h.events, Loop(handle, deadline, ps[1..], last, read + 1, w, r).events);
      }
    }
  }

  /** At every moment of every session, on any bytes and under any failures: a PUBACK follows the
    recording of its own message, PUBACKs go out in the order of the PUBLISHes, and at most one
    recorded QoS 1 message is unacknowledged. */
  lemma AcknowledgementsInOrder(env: Env, id: Str, enrolled: bool, s: Str)
    ensures AlwaysOrderly(RunSession(env, id, enrolled, s).events)
  {
    var o, ps := RunSession(env, id, enrolled, s), Packets(s);
    if |o.events| <= 1 {
      ShortOrderly(o.events);
    } else {
      var hello := Send(env, 0, ConnAck(CONN_ACCEPTED));
      ShortOrderly(hello.events);
      var handle := HandlerOf(env, id, enrolled);
      HandlerIsOrderly(env, id, enrolled);
      LoopOrderly(handle, env.deadline, ps[1..], EndError(s), 1, 1, 0);
      AlwaysOrderlyConcat(hello.events, Loop(handle, env.deadline, ps[1..], EndError(s), 1, 1, 0).events);
    }
  }
}
