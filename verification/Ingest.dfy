/** The ingest server's side of one connection, as its code runs. */
module Ingest {
  import opened Bytes
  import opened Records
  import opened Store
  import opened Framing
  import opened Codec
  import opened Session
  import opened SessionEffects

  /** The next packet of a stream that holds `ps` and then ends with `last`, or why there is none. */
  function NextOf(env: Env, read: nat, ps: seq<Packet>, last: WireError): Result<Packet, End> {
    if !env.deadline(read) then Err(DeadlineFailed)
    else if ps == [] then Err(ReadFailed(last))
    else Ok(ps[0])
  }

  /** A connection: the reader over what the device sends, and the bytes it was sent. */
  class Conn {
    const env: Env
    const reader: Reader
    var out: Str
    var writes: nat
    var deadlines: nat
    var closed: bool

    constructor (env: Env, input: Str)
      ensures this.env == env && reader.rest == input && fresh(reader) && Untouched()
    {
      this.env, out, writes, deadlines, closed := env, [], 0, 0, false;
      reader := new Reader(input);
    }

    predicate Untouched()
      reads this
    {
      out == [] && writes == 0 && deadlines == 0 && !closed
    }

    method Close()
      requires !closed
      modifies this`closed
      ensures closed
    {
      closed := true;
    }

    method SetDeadline() returns (ok: bool)
      modifies this`deadlines
      ensures ok == env.deadline(old(deadlines)) && deadlines == old(deadlines) + 1
    {
      ok := env.deadline(deadlines);
      deadlines := deadlines + 1;
    }

    /** Reads the next packet of the stream, of any size the server takes. */
    method ReadPacket() returns (r: Result<Packet, WireError>)
      modifies reader
      ensures var ps, last := Packets(old(reader.rest)), EndError(old(reader.rest));
              && r == (if ps == [] then Err(last) else Ok(ps[0]))
              && (ps != [] ==>
                    && Packets(reader.rest) == ps[1..] && EndError(reader.rest) == last
                    && |reader.rest| < |old(reader.rest)|)
    {
      PacketsStep(reader.rest);
      r := reader.Read(MAX_PACKET_SIZE);
    }

    /** Moves the deadline, then reads the next packet. */
    method Next() returns (r: Result<Packet, End>)
      modifies this`deadlines, reader
      ensures var ps, last := Packets(old(reader.rest)), EndError(old(reader.rest));
              && r == NextOf(env, old(deadlines), ps, last)
              && (r.Ok? ==>
                    && Packets(reader.rest) == ps[1..] && EndError(reader.rest) == last
                    && |reader.rest| < |old(reader.rest)|)
      ensures deadlines == old(deadlines) + 1
    {
      var timely := SetDeadline();
      if !timely {
        return Err(DeadlineFailed);
      }
      var p := ReadPacket();
      r := if p.Ok? then Ok(p.value) else Err(ReadFailed(p.error));
    }

    /** Writes one reply; a write that breaks may still have delivered some of its bytes. */
    method Write(reply: Reply) returns (ok: bool, ghost events: seq<Event>)
      modifies this`out, this`writes
      ensures var sent := Send(env, old(writes), reply);
              events == sent.events && ok == sent.end.None?
      ensures out == old(out) + Wire(events) && writes == old(writes) + WriteCount(events)
    {
      var frame := Frame(ReplyPacket(reply));
      var outcome := env.write(writes);
      events := Send(env, writes, reply).events;
      assert events[1..] == [] && EventBytes(events[0]) + [] == EventBytes(events[0]);
      if outcome.Broken? && outcome.delivered < |frame| {
        out := out + frame[..outcome.delivered];
      } else {
        out := out + frame;
      }
      writes := writes + 1;
      ok := outcome.Delivered?;
    }
  }

  class Server {
    const store: Store

    constructor (store: Store)
      ensures this.store == store
    {
      this.store := store;
    }

    /** Checks a payload and stores it; `record` readings of this session came before. */
    method Record(env: Env, id: Str, payload: Str, ghost owed: Option<UInt16>, record: nat)
      returns (end: Option<End>, ghost events: seq<Event>)
      requires store.View().Valid()
      modifies store
      ensures store.View().Valid() && store.devices.Keys == old(store.devices.Keys)
      ensures match Accept(env.decode, payload)
              case Err(why) => end == Some(BadSample(why)) && events == []
              case Ok(sample) =>
                if id in old(store.devices) then end == None && events == [Recorded(sample, env.now(record), owed)]
                else end == Some(NotEnrolled) && events == []
      ensures end == None ==>
                var s := env.decode(payload).value;
                var kept := Reading(id, s.metric, s.value, s.at, env.now(record));
                && env.decode(payload).Some? && 1 <= |s.metric| <= 64 && s.value.Finite?
                && store.View().ReadingsFor(id) == LastN(old(store.View()).ReadingsFor(id) + [kept], 1024)
      ensures store.View() == After(old(store.View()), id, events)
    {
      events := [];
      var decoded := env.decode(payload);
      if decoded.None? {
        return Some(BadSample(Undecodable)), [];
      }
      var sample := decoded.value;
      if sample.metric == [] || MAX_METRIC_NAME < |sample.metric| {
        return Some(BadSample(UnusableMetric)), [];
      }
      if !sample.value.Finite? {
        return Some(BadSample(NonFinite)), [];
      }
      var reading := Reading([], sample.metric, sample.value, sample.at, ZERO_TIME);
      var stored := store.RecordReading(id, reading, env.now(record));
      if stored.Err? {
        return Some(NotEnrolled), [];
      }
      events := [Recorded(sample, env.now(record), owed)];
      assert events[1..] == [];
      return None, events;
    }

    method OnPublish(conn: Conn, id: Str, p: Packet, record: nat) returns (end: Option<End>, ghost events: seq<Event>)
      requires store.View().Valid()
      modifies conn`out, conn`writes, store
      ensures store.View().Valid() && store.devices.Keys == old(store.devices.Keys)
      ensures Handled(events, end) == HandlePublish(conn.env, id, id in old(store.devices), p, old(conn.writes), record)
      ensures store.View() == After(old(store.View()), id, events)
      ensures conn.out == old(conn.out) + Wire(events) && conn.writes == old(conn.writes) + WriteCount(events)
    {
      events := [];
      var decoded := DecodePublish(p.flags, p.body);
      if decoded.Err? {
        return Some(BadPublish(decoded.error)), [];
      }
      var pub := decoded.value;
      if pub.topic != TopicFor(id) {
        return Some(ForeignTopic), [];
      }
      ghost var owed := if pub.qos == 1 then Some(pub.packetId) else None;
      end, events := Record(conn.env, id, pub.payload, owed, record);
      if end.Some? || pub.qos != 1 {
        NoWires(events);
        return;
      }
      ghost var recorded, written: seq<Event> := events, [];
      var ok: bool;
      ok, written := conn.Write(PubAck(pub.packetId));
      events := recorded + written;
      RecordThenReply(old(store.View()), id, recorded, written);
      end := if ok then None else Some(WriteFailed);
    }

    lemma NoWires(events: seq<Event>)
      requires |events| <= 1 && (events != [] ==> events[0].Recorded?)
      ensures Wire(events) == [] && WriteCount(events) == 0
    {
      if events != [] {
        assert events[1..] == [];
      }
    }

    lemma RecordThenReply(st: State, id: Str, recorded: seq<Event>, written: seq<Event>)
      requires |recorded| == 1 && recorded[0].Recorded? && |written| == 1 && !written[0].Recorded?
      ensures After(st, id, recorded + written) == After(st, id, recorded)
      ensures Wire(recorded + written) == Wire(written) && WriteCount(recorded + written) == WriteCount(written)
    {
      NoWires(recorded);
      WireConcat(recorded, written);
      AfterConcat(st, id, recorded, written);
      AfterReply(After(st, id, recorded), id, written);
      assert (recorded + written)[1..] == written;
    }

    lemma AfterReply(st: State, id: Str, written: seq<Event>)
      requires |written| == 1 && !written[0].Recorded?
      ensures After(st, id, written) == st
    {
      assert written[1..] == [];
    }

    /** The switch on the packet's type; `next` counts the records so far. */
    method OnPacket(conn: Conn, id: Str, ghost handle: Handler, p: Packet, record: nat)
      returns (end: Option<End>, next: nat, ghost events: seq<Event>)
      requires store.View().Valid() && Serves(handle, conn.env, id, id in store.devices)
      modifies conn`out, conn`writes, store
      ensures store.View().Valid() && store.devices.Keys == old(store.devices.Keys)
      ensures Handled(events, end) == handle(p, old(conn.writes), record)
      ensures end.None? ==> next == record + RecordCount(events)
      ensures store.View() == After(old(store.View()), id, events)
      ensures conn.out == old(conn.out) + Wire(events) && conn.writes == old(conn.writes) + WriteCount(events)
    {
      events := [];
      next := if p.kind == PUBLISH then record + 1 else record;
      assert ServesAt(handle, conn.env, id, id in store.devices, p, conn.writes, record);
      OneRecord(conn.env, id, id in store.devices, p, conn.writes, record);
      if p.kind == PUBLISH {
        end, events := OnPublish(conn, id, p, record);
      } else if p.kind == PINGREQ {
        var ok: bool;
        ok, events := conn.Write(PingResp);
        AfterReply(store.View(), id, events);
        end := if ok then None else Some(WriteFailed);
      } else if p.kind == DISCONNECT {
        end := Some(Disconnected);
      } else {
        end := Some(Unexpected);
      }
    }

    /** What the session will still do from here. */
    ghost function Remaining(conn: Conn, handle: Handler, record: nat): Outcome
      reads conn, conn.reader
    {
      Loop(handle, conn.env.deadline, Packets(conn.reader.rest), EndError(conn.reader.rest),
           conn.deadlines, conn.writes, record)
    }

    /** Reads and handles one packet. */
    method Turn(conn: Conn, id: Str, ghost handle: Handler, record: nat)
      returns (stop: Option<End>, next: nat, ghost events: seq<Event>)
      requires store.View().Valid() && Serves(handle, conn.env, id, id in store.devices)
      modifies conn`out, conn`writes, conn`deadlines, conn.reader, store
      ensures store.View().Valid() && store.devices.Keys == old(store.devices.Keys)
      ensures old(Remaining(conn, handle, record)) ==
              if stop.Some? then Outcome(events, stop.value) else Prepend(events, Remaining(conn, handle, next))
      ensures stop.None? ==> |conn.reader.rest| < |old(conn.reader.rest)|
      ensures store.View() == After(old(store.View()), id, events)
      ensures conn.out == old(conn.out) + Wire(events)
    {
      events := [];
      next := record;
      ghost var ps, last, write := Packets(conn.reader.rest), EndError(conn.reader.rest), conn.writes;
      ghost var read := conn.deadlines;
      var p := conn.Next();
      if p.Err? {
        stop := Some(p.error);
        return;
      }
      stop, next, events := OnPacket(conn, id, handle, p.value, record);
      LoopTurn(handle, conn.env.deadline, ps, last, read, write, record, p.value, Handled(events, stop),
               Packets(conn.reader.rest), conn.writes, next);
    }

    lemma OneRecord(env: Env, id: Str, enrolled: bool, p: Packet, write: nat, record: nat)
      ensures var h := HandlePacket(env, id, enrolled, p, write, record);
              h.end.None? ==> RecordCount(h.events) == if p.kind == PUBLISH then 1 else 0
    {
      var events := HandlePacket(env, id, enrolled, p, write, record).events;
      if |events| == 2 {
        assert events[1..] == [events[1]];
        CountOne(events[1]);
      } else if |events| == 1 {
        assert events == [events[0]];
        CountOne(events[0]);
      }
    }

    lemma CountOne(e: Event)
      ensures RecordCount([e]) == if e.Recorded? then 1 else 0
    {
      assert [e][1..] == [];
    }

    /** Reads packets until one, or the connection, ends the session. */
    method Serve(conn: Conn, id: Str, ghost handle: Handler) returns (end: End, ghost events: seq<Event>)
      requires store.View().Valid() && Serves(handle, conn.env, id, id in store.devices)
      modifies conn`out, conn`writes, conn`deadlines, conn.reader, store
      ensures store.View().Valid()
      ensures Outcome(events, end) == old(Remaining(conn, handle, 0))
      ensures store.View() == After(old(store.View()), id, events)
      ensures conn.out == old(conn.out) + Wire(events)
    {
      ghost var whole := Remaining(conn, handle, 0);
      var record: nat := 0;
      events := [];
      while true
        invariant store.View().Valid() && store.devices.Keys == old(store.devices.Keys)
        invariant whole == Prepend(events, Remaining(conn, handle, record))
        invariant store.View() == After(old(store.View()), id, events)
        invariant conn.out == old(conn.out) + Wire(events)
        decreases |conn.reader.rest|
      {
        ghost var before, now: seq<Event> := events, [];
        var stop: Option<End>;
        stop, record, now := Turn(conn, id, handle, record);
        events := before + now;
        AfterConcat(old(store.View()), id, before, now);
        WireConcat(before, now);
        ConcatAssoc(old(conn.out), Wire(before), Wire(now));
        if stop.Some? {
          return stop.value, events;
        }
        PrependPrepend(before, now, Remaining(conn, handle, record));
      }
    }

    lemma PrependPrepend(a: seq<Event>, b: seq<Event>, o: Outcome)
      ensures Prepend(a, Prepend(b, o)) == Prepend(a + b, o)
    {
      ConcatAssoc(a, b, o.events);
    }

    lemma LoopTurn(handle: Handler, deadline: nat -> bool, ps: seq<Packet>, last: WireError,
                   read: nat, write: nat, record: nat, p: Packet, h: Handled,
                   left: seq<Packet>, write': nat, record': nat)
      requires ps != [] && ps[0] == p && deadline(read) && h == handle(p, write, record)
      requires h.end.None? ==>
                 left == ps[1..] && write' == write + WriteCount(h.events) && record' == record + RecordCount(h.events)
      ensures Loop(handle, deadline, ps, last, read, write, record) ==
              if h.end.Some? then Outcome(h.events, h.end.value)
              else Prepend(h.events, Loop(handle, deadline, left, last, read + 1, write', record'))
    {
    }

    /** Answers a CONNECT. */
    method OnConnect(conn: Conn, id: Str, body: Str) returns (end: Option<End>, ghost events: seq<Event>)
      requires conn.writes == 0
      modifies conn`out, conn`writes
      ensures Handled(events, end) == Greet(conn.env, body)
      ensures conn.out == old(conn.out) + Wire(events) && conn.writes == 1
      ensures After(store.View(), id, events) == store.View()
    {
      var connect := DecodeConnect(body);
      var ok: bool;
      if connect.Err? {
        var code := CONN_REFUSED_BAD_PROTOCOL;
        if connect.error == CredentialsInConnect {
          code := CONN_REFUSED_NOT_AUTHED;
        }
        ok, events := conn.Write(ConnAck(code));
        end := Some(ConnectRefused(connect.error));
      } else {
        ok, events := conn.Write(ConnAck(CONN_ACCEPTED));
        end := if ok then None else Some(WriteFailed);
      }
      AfterReply(store.View(), id, events);
    }

    /** The session of a device whose id was verified. */
    method Session(conn: Conn, id: Str) returns (end: End, ghost events: seq<Event>)
      requires store.View().Valid() && conn.Untouched()
      modifies conn`out, conn`writes, conn`deadlines, conn.reader, store
      ensures store.View().Valid()
      ensures Outcome(events, end) == RunSession(conn.env, id, id in old(store.devices), old(conn.reader.rest))
      ensures store.View() == After(old(store.View()), id, events)
      ensures conn.out == Wire(events)
    {
      ghost var ps, last := Packets(conn.reader.rest), EndError(conn.reader.rest);
      ghost var left := if ps == [] then [] else ps[1..];
      Starts(conn.env, id, id in store.devices, conn.reader.rest, ps, last, left);
      var first := conn.Next();
      end, events := Conversation(conn, id, first, left, last);
    }

    /** The session by its first packet, or by why there is none; `rest` is what would follow a greeting. */
    function Started(env: Env, first: Result<Packet, End>, rest: Outcome): Outcome {
      match first
      case Err(end) => Outcome([], end)
      case Ok(p) =>
        if p.kind != CONNECT then Outcome([], NotAConnect)
        else
          var greeting := Greet(env, p.body);
          if greeting.end.Some? then Outcome(greeting.events, greeting.end.value) else Prepend(greeting.events, rest)
    }

    lemma Starts(env: Env, id: Str, enrolled: bool, s: Str, ps: seq<Packet>, last: WireError, left: seq<Packet>)
      requires ps == Packets(s) && last == EndError(s) && (ps != [] ==> left == ps[1..])
      ensures RunSession(env, id, enrolled, s) ==
              Started(env, NextOf(env, 0, ps, last),
                      Loop(HandlerOf(env, id, enrolled), env.deadline, left, last, 1, 1, 0))
    {
    }

    /** Everything from the first packet on; `left` are the packets after it. */
    method Conversation(conn: Conn, id: Str, first: Result<Packet, End>, ghost left: seq<Packet>, ghost last: WireError)
      returns (end: End, ghost events: seq<Event>)
      requires store.View().Valid() && conn.out == [] && conn.writes == 0 && conn.deadlines == 1
      requires first.Ok? ==> left == Packets(conn.reader.rest) && last == EndError(conn.reader.rest)
      modifies conn`out, conn`writes, conn`deadlines, conn.reader, store
      ensures store.View().Valid()
      ensures Outcome(events, end) ==
              Started(conn.env, first,
                      Loop(HandlerOf(conn.env, id, id in old(store.devices)), conn.env.deadline, left, last, 1, 1, 0))
      ensures store.View() == After(old(store.View()), id, events)
      ensures conn.out == Wire(events)
    {
      events := [];
      if first.Err? {
        return first.error, [];
      }
      if first.value.kind != CONNECT {
        return NotAConnect, [];
      }
      var refused: Option<End>;
      refused, events := OnConnect(conn, id, first.value.body);
      assert [] + Wire(events) == Wire(events);
      if refused.Some? {
        return refused.value, events;
      }
      ghost var hello, more: seq<Event> := events, [];
      end, more := Telemetry(conn, id, hello);
      events := hello + more;
    }

    /** The packets after an accepted CONNECT. */
    method Telemetry(conn: Conn, id: Str, ghost hello: seq<Event>) returns (end: End, ghost rest: seq<Event>)
      requires store.View().Valid() && After(store.View(), id, hello) == store.View() && conn.out == Wire(hello)
      modifies conn`out, conn`writes, conn`deadlines, conn.reader, store
      ensures store.View().Valid()
      ensures Outcome(rest, end) == old(Remaining(conn, HandlerOf(conn.env, id, id in store.devices), 0))
      ensures store.View() == After(old(store.View()), id, hello + rest)
      ensures conn.out == Wire(hello + rest)
    {
      HandlerServes(conn.env, id, id in store.devices);
      end, rest := Serve(conn, id, HandlerOf(conn.env, id, id in store.devices));
      AfterConcat(old(store.View()), id, hello, rest);
      WireConcat(hello, rest);
    }

    /** The gate before a session: a verified id that is not enrolled is neither read from nor answered.
      No id means that the certificate named none. In the end the connection is closed in any case. */
    method Handle(conn: Conn, verified: Option<Str>) returns (served: bool)
      requires store.View().Valid() && conn.Untouched()
      modifies conn, conn.reader, store
      ensures store.View().Valid() && conn.closed
      ensures served <==> verified.Some? && verified.value in old(store.devices)
      ensures !served ==> conn.out == [] && unchanged(conn`deadlines) && unchanged(conn.reader) && unchanged(store)
      ensures served ==>
                var o := RunSession(conn.env, verified.value, true, old(conn.reader.rest));
                conn.out == Wire(o.events) && store.View() == After(old(store.View()), verified.value, o.events)
    {
      served := false;
      if verified.Some? {
        var device := store.Device(verified.value);
        if device.Some? {
          var _, _ := Session(conn, verified.value);
          served := true;
        }
      }
      conn.Close();
    }
  }
}
