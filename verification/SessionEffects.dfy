/** What a session leaves behind: the bytes on the wire and the readings in the store. */
module SessionEffects {
  import opened Bytes
  import opened Records
  import opened Framing
  import opened Session

  // ----- The wire -----

  /** The reply an event puts on the wire in full, if it does. */
  function InFull(e: Event): seq<Packet> {
    match e
    case Recorded(_, _, _) => []
    case Replied(reply) => [ReplyPacket(reply)]
    case Broke(reply, n) => if n < |Frame(ReplyPacket(reply))| then [] else [ReplyPacket(reply)]
  }

  function AllInFull(events: seq<Event>): seq<Packet> {
    if events == [] then [] else InFull(events[0]) + AllInFull(events[1..])
  }

  predicate BreaksOnlyLast(events: seq<Event>) {
    forall i :: 0 <= i < |events| - 1 ==> !events[i].Broke?
  }

  lemma TornFrame(p: Packet, n: nat)
    requires Sendable(p)
    ensures Packets(if n < |Frame(p)| then Frame(p)[..n] else Frame(p)) == if n < |Frame(p)| then [] else [p]
  {
    if n < |Frame(p)| {
      ParseTruncated(p, n);
    } else {
      PacketsCons(p, []);
      assert Frame(p) + [] == Frame(p) && Packets([]) == [];
    }
  }

  /** Whatever a session did, and even when its last write broke half-way, its peer reads back exactly
    the replies sent in full, in order. */
  lemma {:induction false} WireReadsBack(events: seq<Event>)
    requires BreaksOnlyLast(events)
    ensures Packets(Wire(events)) == AllInFull(events)
  {
    if events == [] {
      assert Packets([]) == [];
    } else {
      var rest := Wire(events[1..]);
      WireReadsBack(events[1..]);
      match events[0]
      case Recorded(_, _, _) => assert [] + rest == rest && [] + AllInFull(events[1..]) == AllInFull(events[1..]);
      case Replied(reply) => PacketsCons(ReplyPacket(reply), rest);
      case Broke(reply, n) =>
        assert events[1..] == [];
        TornFrame(ReplyPacket(reply), n);
        assert EventBytes(events[0]) + [] == EventBytes(events[0]) && InFull(events[0]) + [] == InFull(events[0]);
    }
  }

  lemma {:induction false} WireConcat(a: seq<Event>, b: seq<Event>)
    ensures Wire(a + b) == Wire(a) + Wire(b)
  {
    if a == [] {
      assert a + b == b;
    } else {
      assert (a + b)[1..] == a[1..] + b;
      WireConcat(a[1..], b);
      ConcatAssoc(EventBytes(a[0]), Wire(a[1..]), Wire(b));
    }
  }

  // ----- The store -----

  /** The readings a session stored, oldest first. */
  function Stored(id: Str, events: seq<Event>): seq<Reading> {
    if events == [] then [] else StoredBy(id, events[0]) + Stored(id, events[1..])
  }

  /** The sample as it came in, under the device's verified id, with the time the server stored it. */
  function StoredBy(id: Str, e: Event): seq<Reading> {
    if e.Recorded? then [Reading(id, e.sample.metric, e.sample.value, e.sample.at, e.at)] else []
  }

  /** What `record` hands to the store: neither the device nor the server's time is filled in yet. */
  function OpOf(id: Str, e: Event): Op
    requires e.Recorded?
  {
    Op.Record(id, Reading([], e.sample.metric, e.sample.value, e.sample.at, ZERO_TIME), e.at)
  }

  function AfterEvent(st: State, id: Str, e: Event): State {
    if e.Recorded? then Step(st, OpOf(id, e)) else st
  }

  function After(st: State, id: Str, events: seq<Event>): State
    decreases |events|
  {
    if events == [] then st else After(AfterEvent(st, id, events[0]), id, events[1..])
  }

  lemma {:induction false} AfterConcat(st: State, id: Str, a: seq<Event>, b: seq<Event>)
    ensures After(st, id, a + b) == After(After(st, id, a), id, b)
    decreases |a|
  {
    if a == [] {
      assert a + b == b;
    } else {
      assert (a + b)[1..] == a[1..] + b;
      AfterConcat(AfterEvent(st, id, a[0]), id, a[1..], b);
    }
  }

  /** The state after one stored reading, when the device is known. */
  lemma OneStored(st: State, id: Str, r: Reading, now: Time)
    requires id in st.devices
    ensures var st' := AfterRecord(st, id, r, now);
            && st'.ReadingsFor(id) == LastN(st.ReadingsFor(id) + [Stamp(id, r, now)], MAX_READINGS_PER_DEVICE)
            && OnlyOwnDevice(st, st', id)
  {
  }

  /** Nothing changed but the device's readings and its LastSeen. */
  ghost predicate OnlyOwnDevice(st: State, st': State, id: Str) {
    && st'.devices.Keys == st.devices.Keys
    && st'.audit == st.audit
    && (forall other :: other in st.devices && other != id ==> st'.devices[other] == st.devices[other])
    && (forall other :: other != id ==> st'.ReadingsFor(other) == st.ReadingsFor(other))
    && (id in st.devices ==> st'.devices[id] == st.devices[id].(lastSeen := st'.devices[id].lastSeen))
  }

  lemma LastNFlows<T>(s: seq<T>, x: T, more: seq<T>, n: nat)
    ensures LastN(LastN(s + [x], n) + more, n) == LastN(s + ([x] + more), n)
  {
    LastNConcat(s + [x], more, n);
    ConcatAssoc(s, [x], more);
  }

  /** A session of an enrolled device changes only that device's readings and LastSeen, and leaves the
    last 1024 of its readings from before followed by those of the session. */
  lemma {:induction false} SessionStores(st: State, id: Str, events: seq<Event>)
    requires id in st.devices && |st.ReadingsFor(id)| <= MAX_READINGS_PER_DEVICE
    ensures OnlyOwnDevice(st, After(st, id, events), id)
    ensures After(st, id, events).ReadingsFor(id) ==
            LastN(st.ReadingsFor(id) + Stored(id, events), MAX_READINGS_PER_DEVICE)
    decreases |events|
  {
    if events == [] {
      assert st.ReadingsFor(id) + [] == st.ReadingsFor(id);
    } else if events[0].Recorded? {
      var op := OpOf(id, events[0]);
      OneStored(st, id, op.reading, op.now);
      SessionStores(Step(st, op), id, events[1..]);
      LastNFlows(st.ReadingsFor(id), Stamp(id, op.reading, op.now), Stored(id, events[1..]), MAX_READINGS_PER_DEVICE);
    } else {
      SessionStores(st, id, events[1..]);
      assert [] + Stored(id, events[1..]) == Stored(id, events[1..]);
    }
  }

  /** The store operations of a session. */
  function StoreOps(id: Str, events: seq<Event>): (ops: seq<Op>)
    ensures forall i :: 0 <= i < |ops| ==> ops[i].Record? && ops[i].deviceId == id
  {
    if events == [] then []
    else
      (if events[0].Recorded? then [OpOf(id, events[0])] else [])
      + StoreOps(id, events[1..])
  }

  /** To the store a session is a run of records for its own device, so everything proved of runs of
    operations holds of sessions, however many there are. */
  lemma {:induction false} SessionIsRun(st: State, id: Str, events: seq<Event>)
    ensures After(st, id, events) == Run(st, StoreOps(id, events))
    decreases |events|
  {
    if events != [] {
      var e := events[0];
      SessionIsRun(AfterEvent(st, id, e), id, events[1..]);
      if e.Recorded? {
        var op := OpOf(id, e);
        RunAppend(st, [op], StoreOps(id, events[1..]));
        assert [op][..0] == [] && Run(st, [op]) == Step(st, op);
      } else {
        assert StoreOps(id, events) == StoreOps(id, events[1..]);
      }
    }
  }

  // ----- Sessions among other activity -----

  predicate RecordsFor(op: Op, id: Str) {
    op.Record? && op.deviceId == id
  }

  /** What a run does to one device's readings. */
  function RecordsOf(ops: seq<Op>, id: Str): seq<Op> {
    if ops == [] then []
    else RecordsOf(ops[..|ops| - 1], id) + if RecordsFor(ops[|ops| - 1], id) then [ops[|ops| - 1]] else []
  }

  lemma OtherOperations(st: State, op: Op, id: Str)
    requires !RecordsFor(op, id)
    ensures Step(st, op).ReadingsFor(id) == st.ReadingsFor(id)
    ensures id in st.devices ==> id in Step(st, op).devices
  {
  }

  lemma OwnOperation(a: State, b: State, op: Op, id: Str)
    requires RecordsFor(op, id) && id in a.devices && id in b.devices && a.ReadingsFor(id) == b.ReadingsFor(id)
    ensures Step(a, op).ReadingsFor(id) == Step(b, op).ReadingsFor(id)
    ensures id in Step(a, op).devices && id in Step(b, op).devices
  {
  }

  /** A known device's readings depend on nothing but its own records, whatever comes between them. */
  lemma {:induction false} OnlyRecordsMatter(st: State, ops: seq<Op>, id: Str)
    requires id in st.devices
    ensures id in Run(st, ops).devices && id in Run(st, RecordsOf(ops, id)).devices
    ensures Run(st, ops).ReadingsFor(id) == Run(st, RecordsOf(ops, id)).ReadingsFor(id)
  {
    if ops != [] {
      var before, op := ops[..|ops| - 1], ops[|ops| - 1];
      var own := RecordsOf(before, id);
      OnlyRecordsMatter(st, before, id);
      if RecordsFor(op, id) {
        OwnOperation(Run(st, before), Run(st, own), op, id);
        assert (own + [op])[..|own|] == own;
      } else {
        OtherOperations(Run(st, before), op, id);
        assert own + [] == own;
      }
    }
  }

  /** Sessions of other devices, enrolments and audit entries may come between the records of a session:
    the device's readings still become the last 1024 of those before and those of the session. */
  lemma SessionAmongOthers(st: State, ops: seq<Op>, id: Str, events: seq<Event>)
    requires id in st.devices && |st.ReadingsFor(id)| <= MAX_READINGS_PER_DEVICE
    requires RecordsOf(ops, id) == StoreOps(id, events)
    ensures Run(st, ops).ReadingsFor(id) == LastN(st.ReadingsFor(id) + Stored(id, events), MAX_READINGS_PER_DEVICE)
  {
    OnlyRecordsMatter(st, ops, id);
    SessionIsRun(st, id, events);
    SessionStores(st, id, events);
  }

  /** A device that is not enrolled stores nothing. */
  lemma {:induction false} StrangersStoreNothing(st: State, id: Str, events: seq<Event>)
    requires id !in st.devices
    ensures After(st, id, events) == st
  {
    if events != [] {
      StrangersStoreNothing(st, id, events[1..]);
    }
  }
}
