/** The in-memory store. Its lock is held for the whole of every operation, so each one is atomic;
  the clock is read by the caller and passed in. */
module Store {
  import opened Bytes
  import opened Records

  class Store {
    var devices: map<Str, Device>
    var readings: map<Str, seq<Reading>>
    var audit: seq<AuditEntry>

    ghost function View(): State
      reads this
    {
      State(devices, readings, audit)
    }

    constructor ()
      ensures View() == EMPTY && View().Valid()
    {
      devices, readings, audit := map[], map[], [];
    }

    method Enrol(d: Device) returns (r: Result<(), StoreError>)
      requires View().Valid()
      modifies this
      ensures View() == Step(old(View()), Op.Enrol(d)) && View().Valid()
      ensures r == if Enrollable(d) then Ok(()) else Err(InvalidDevice)
      ensures r.Ok? ==> devices == old(devices)[d.id := d]
      ensures r.Err? ==> unchanged(this)
    {
      if d.id == [] || d.orgId == [] {
        return Err(InvalidDevice);
      }
      devices := devices[d.id := d];
      return Ok(());
    }

    method Device(id: Str) returns (d: Option<Device>)
      ensures d == if id in devices then Some(devices[id]) else None
    {
      if id in devices {
        return Some(devices[id]);
      }
      return None;
    }

    method RecordReading(deviceId: Str, reading: Reading, now: Time) returns (r: Result<(), StoreError>)
      requires View().Valid()
      modifies this
      ensures View() == Step(old(View()), Op.Record(deviceId, reading, now)) && View().Valid()
      ensures r == if deviceId in old(devices) then Ok(()) else Err(UnknownDevice)
    {
      if deviceId !in devices {
        return Err(UnknownDevice);
      }
      var stamped := reading.(deviceId := deviceId, receivedAt := now);
      devices := devices[deviceId := devices[deviceId].(lastSeen := now)];
      var rs := (if deviceId in readings then readings[deviceId] else []) + [stamped];
      if MAX_READINGS_PER_DEVICE < |rs| {
        rs := rs[|rs| - MAX_READINGS_PER_DEVICE..];
      }
      readings := readings[deviceId := rs];
      StepKeepsValid(old(View()), Op.Record(deviceId, reading, now));
      return Ok(());
    }

    /** Walks the map in whatever order it comes, then sorts by id. */
    method Fleet(sc: Scope) returns (r: Result<seq<Device>, StoreError>)
      requires View().Valid()
      ensures r == if OrgOf(sc).Err? then Err(NoTenantScope) else Ok(FleetOf(View(), sc.org))
      ensures r.Ok? ==>
                && (forall d :: d in r.value <==> d.id in devices && devices[d.id] == d && d.orgId == sc.org)
                && (forall i, j :: 0 <= i < j < |r.value| ==> Before(r.value[i].id, r.value[j].id))
    {
      if sc.Unscoped? || sc.org == [] {
        return Err(NoTenantScope);
      }
      var out: seq<Device> := [];
      var pending := devices.Keys;
      while pending != {}
        invariant pending <= devices.Keys
        invariant DistinctIds(out)
        invariant forall d :: d in out <==> d.id in devices.Keys - pending && devices[d.id] == d && d.orgId == sc.org
        decreases pending
      {
        var id :| id in pending;
        if devices[id].orgId == sc.org {
          out := out + [devices[id]];
        }
        pending := pending - {id};
      }
      SortByIdSorts(out);
      assert Elements(out) == DevicesOf(View(), sc.org);
      FleetOfIsFleet(View(), sc.org);
      FleetUnique(View(), sc.org, SortById(out), FleetOf(View(), sc.org));
      FleetExactly(View(), sc.org);
      return Ok(SortById(out));
    }

    /** Newest first. */
    method Readings(sc: Scope, deviceId: Str, limit: int) returns (r: Result<seq<Reading>, StoreError>)
      ensures r == if OrgOf(sc).Err? then Err(NoTenantScope) else Ok(ReadingsOf(View(), sc.org, deviceId, limit))
    {
      if sc.Unscoped? || sc.org == [] {
        return Err(NoTenantScope);
      }
      var bound := limit;
      if bound <= 0 || MAX_READINGS_PER_DEVICE < bound {
        bound := MAX_READINGS_PER_DEVICE;
      }
      if deviceId !in devices || devices[deviceId].orgId != sc.org {
        return Ok([]);
      }
      var rs := if deviceId in readings then readings[deviceId] else [];
      var out := [];
      var i := |rs| - 1;
      while 0 <= i && |out| < bound
        invariant -1 <= i < |rs| && |out| == |rs| - 1 - i <= bound
        invariant forall k :: 0 <= k < |out| ==> out[k] == rs[|rs| - 1 - k]
      {
        out := out + [rs[i]];
        i := i - 1;
      }
      assert out == Reverse(LastN(rs, bound));
      return Ok(out);
    }

    method AppendAudit(sc: Scope, entry: AuditEntry, now: Time) returns (r: Result<(), StoreError>)
      requires View().Valid()
      modifies this
      ensures View() == Step(old(View()), Op.Append(sc, entry, now)) && View().Valid()
      ensures r == if OrgOf(sc).Ok? then Ok(()) else Err(NoTenantScope)
      ensures devices == old(devices) && readings == old(readings)
    {
      if sc.Unscoped? || sc.org == [] {
        return Err(NoTenantScope);
      }
      var e := entry.(orgId := sc.org);
      if e.at == ZERO_TIME {
        e := e.(at := now);
      }
      audit := audit + [e];
      return Ok(());
    }

    /** Newest first. */
    method Audit(sc: Scope, actionPrefix: Str) returns (r: Result<seq<AuditEntry>, StoreError>)
      ensures r == if OrgOf(sc).Err? then Err(NoTenantScope) else Ok(AuditOf(View(), sc.org, actionPrefix))
    {
      if sc.Unscoped? || sc.org == [] {
        return Err(NoTenantScope);
      }
      ghost var all := Reverse(Select(audit, sc.org, actionPrefix));
      var out := [];
      var i := |audit| - 1;
      assert audit[..|audit|] == audit;
      while 0 <= i
        invariant -1 <= i < |audit|
        invariant all == out + Reverse(Select(audit[..i + 1], sc.org, actionPrefix))
      {
        var e := audit[i];
        var more := if e.orgId == sc.org && HasPrefix(e.action, actionPrefix) then [e] else [];
        SelectBack(audit, i, sc.org, actionPrefix);
        ConcatAssoc(out, more, Reverse(Select(audit[..i], sc.org, actionPrefix)));
        out := out + more;
        i := i - 1;
      }
      assert audit[..0] == [] && out + [] == out;
      return Ok(out);
    }
  }

  lemma SelectBack(audit: seq<AuditEntry>, i: nat, org: Str, prefix: Str)
    requires i < |audit|
    ensures var e := audit[i];
            Reverse(Select(audit[..i + 1], org, prefix))
            == (if e.orgId == org && HasPrefix(e.action, prefix) then [e] else [])
               + Reverse(Select(audit[..i], org, prefix))
  {
    SelectLast(audit[..i + 1], org, prefix);
    assert audit[..i + 1][..i] == audit[..i];
  }

  lemma ReverseAppend<T>(s: seq<T>, x: T)
    ensures Reverse(s + [x]) == [x] + Reverse(s)
  {
  }

  /** The newest entry comes first if it is selected. */
  lemma SelectLast(audit: seq<AuditEntry>, org: Str, prefix: Str)
    requires audit != []
    ensures var e := audit[|audit| - 1];
            Reverse(Select(audit, org, prefix))
            == (if e.orgId == org && HasPrefix(e.action, prefix) then [e] else [])
               + Reverse(Select(audit[..|audit| - 1], org, prefix))
  {
    var s := Select(audit[..|audit| - 1], org, prefix);
    ReverseAppend(s, audit[|audit| - 1]);
    assert s + [] == s;
  }
}
