/** The Telemetry DB and the Audit Log as values: what each store operation answers and what it
  leaves behind, and runs of operations. */
module Records {
  import opened Bytes

  /** Nanoseconds; 0 is Go's zero time. Clock readings are inputs. */
  type Time = int

  const ZERO_TIME: Time := 0
  const MAX_READINGS_PER_DEVICE: nat := 1024

  datatype Number = NaN | Infinite | Finite(value: real)

  datatype Device = Device(id: Str, orgId: Str, model: Str, firmwareVersion: Str, lastSeen: Time)

  datatype Reading = Reading(deviceId: Str, metric: Str, value: Number, at: Time, receivedAt: Time)

  datatype AuditEntry =
    AuditEntry(at: Time, actor: Str, orgId: Str, action: Str, target: Str, outcome: Str, reason: Str)

  datatype StoreError = NoTenantScope | UnknownDevice | InvalidDevice

  datatype Identity = Identity(subject: Str, orgId: Str)

  /** A nil `Scope`, or one bound to an organisation. */
  datatype Scope = Unscoped | OrgScope(org: Str)

  function ScopeFor(id: Identity): Result<Scope, StoreError> {
    if id.orgId == [] then Err(NoTenantScope) else Ok(OrgScope(id.orgId))
  }

  function OrgOf(sc: Scope): Result<Str, StoreError> {
    if sc.Unscoped? || sc.org == [] then Err(NoTenantScope) else Ok(sc.org)
  }

  datatype State = State(devices: map<Str, Device>, readings: map<Str, seq<Reading>>, audit: seq<AuditEntry>) {

    function ReadingsFor(id: Str): seq<Reading> {
      if id in readings then readings[id] else []
    }

    predicate OwnedBy(id: Str, org: Str) {
      id in devices && devices[id].orgId == org
    }

    /** Every device is filed under its own id and has an id and an organisation; only enrolled
      devices have readings, each stamped with that device's id; the log has no unowned entry. */
    ghost predicate Valid() {
      && (forall id :: id in devices ==> devices[id].id == id && Enrollable(devices[id]))
      && (forall id :: id in readings ==> id in devices && |readings[id]| <= MAX_READINGS_PER_DEVICE)
      && (forall id, i :: id in readings && 0 <= i < |readings[id]| ==> readings[id][i].deviceId == id)
      && (forall i :: 0 <= i < |audit| ==> audit[i].orgId != [])
    }
  }

  const EMPTY := State(map[], map[], [])

  predicate Enrollable(d: Device) {
    d.id != [] && d.orgId != []
  }

  /** A reading as stored: attributed to the device and stamped with the server's clock. */
  function Stamp(id: Str, r: Reading, now: Time): Reading {
    r.(deviceId := id, receivedAt := now)
  }

  function AfterEnrol(st: State, d: Device): State {
    if Enrollable(d) then st.(devices := st.devices[d.id := d]) else st
  }

  function AfterRecord(st: State, id: Str, r: Reading, now: Time): State {
    if id !in st.devices then st
    else
      st.(devices := st.devices[id := st.devices[id].(lastSeen := now)],
          readings := st.readings[id := LastN(st.ReadingsFor(id) + [Stamp(id, r, now)], MAX_READINGS_PER_DEVICE)])
  }

  function Filed(org: Str, e: AuditEntry, now: Time): AuditEntry {
    e.(orgId := org, at := if e.at == ZERO_TIME then now else e.at)
  }

  function AfterAppend(st: State, sc: Scope, e: AuditEntry, now: Time): State {
    if OrgOf(sc).Err? then st else st.(audit := st.audit + [Filed(OrgOf(sc).value, e, now)])
  }

  // ----- Queries -----

  ghost function Elements<T>(s: seq<T>): set<T> {
    set x | x in s
  }

  ghost predicate SortedById(s: seq<Device>) {
    forall i, j :: 0 <= i < j < |s| ==> Less(s[i].id, s[j].id)
  }

  ghost function DevicesOf(st: State, org: Str): set<Device> {
    set id | st.OwnedBy(id, org) && id in st.devices :: st.devices[id]
  }

  /** The organisation's devices, each once, in ascending id order. */
  ghost predicate IsFleet(st: State, org: Str, out: seq<Device>) {
    SortedById(out) && Elements(out) == DevicesOf(st, org)
  }

  function ClampLimit(limit: int): nat {
    if limit <= 0 || MAX_READINGS_PER_DEVICE < limit then MAX_READINGS_PER_DEVICE else limit
  }

  function ReadingsOf(st: State, org: Str, id: Str, limit: int): seq<Reading> {
    if st.OwnedBy(id, org) then Reverse(LastN(st.ReadingsFor(id), ClampLimit(limit))) else []
  }

  /** The organisation's entries whose action starts with `prefix`, oldest first. */
  function Select(audit: seq<AuditEntry>, org: Str, prefix: Str): seq<AuditEntry> {
    if audit == [] then []
    else
      var e := audit[|audit| - 1];
      Select(audit[..|audit| - 1], org, prefix) + if e.orgId == org && HasPrefix(e.action, prefix) then [e] else []
  }

  function AuditOf(st: State, org: Str, prefix: Str): seq<AuditEntry> {
    Reverse(Select(st.audit, org, prefix))
  }

  // ----- Runs -----

  datatype Op =
    | Enrol(device: Device)
    | Record(deviceId: Str, reading: Reading, now: Time)
    | Append(scope: Scope, entry: AuditEntry, now: Time)
  {
    predicate Enrols(id: Str) {
      Enrol? && Enrollable(device) && device.id == id
    }
  }

  function Step(st: State, op: Op): State {
    match op
    case Enrol(d) => AfterEnrol(st, d)
    case Record(id, r, now) => AfterRecord(st, id, r, now)
    case Append(sc, e, now) => AfterAppend(st, sc, e, now)
  }

  function Run(st: State, ops: seq<Op>): State {
    if ops == [] then st else Step(Run(st, ops[..|ops| - 1]), ops[|ops| - 1])
  }

  lemma StepKeepsValid(st: State, op: Op)
    requires st.Valid()
    ensures Step(st, op).Valid()
  {
  }

  lemma {:induction false} RunKeepsValid(st: State, ops: seq<Op>)
    requires st.Valid()
    ensures Run(st, ops).Valid()
  {
    if ops != [] {
      RunKeepsValid(st, ops[..|ops| - 1]);
      StepKeepsValid(Run(st, ops[..|ops| - 1]), ops[|ops| - 1]);
    }
  }

  lemma {:induction false} RunAppend(st: State, ops: seq<Op>, more: seq<Op>)
    ensures Run(st, ops + more) == Run(Run(st, ops), more)
  {
    if more == [] {
      assert ops + more == ops;
    } else {
      var init := more[..|more| - 1];
      assert (ops + more)[..|ops + more| - 1] == ops + init;
      RunAppend(st, ops, init);
    }
  }

  lemma RunThree(st: State, a: Op, b: Op, c: Op)
    ensures Run(st, [a, b]) == Step(Step(st, a), b)
    ensures Run(st, [a, b, c]) == Step(Step(Step(st, a), b), c)
  {
    assert [a][..0] == [];
    assert Run(st, [a]) == Step(st, a);
    assert [a, b][..1] == [a];
    assert [a, b, c][..2] == [a, b];
  }

  /** A device is known after a run exactly when it was known before or some operation enrolled it;
    nothing ever removes one. */
  lemma {:induction false} KnownDevices(st: State, ops: seq<Op>, id: Str)
    ensures id in Run(st, ops).devices <==> id in st.devices || exists i :: 0 <= i < |ops| && ops[i].Enrols(id)
  {
    if ops != [] {
      var init, last := ops[..|ops| - 1], ops[|ops| - 1];
      KnownDevices(st, init, id);
      if i :| 0 <= i < |init| && init[i].Enrols(id) {
        assert ops[i].Enrols(id);
      }
      if i :| 0 <= i < |ops| && ops[i].Enrols(id) {
        assert i < |init| ==> init[i].Enrols(id);
      }
    }
  }

  // ----- The fleet view -----

  lemma NoElements<T>(s: seq<T>)
    ensures s == [] <==> Elements(s) == {}
    ensures s != [] ==> s[0] in Elements(s)
  {
    if s != [] {
      assert s[0] in Elements(s);
    }
  }

  /** The store's answer does not depend on the order in which its map is walked. */
  lemma FleetUnique(st: State, org: Str, a: seq<Device>, b: seq<Device>)
    requires IsFleet(st, org, a) && IsFleet(st, org, b)
    ensures a == b
  {
    SortedUnique(a, b);
  }

  lemma {:induction false} SortedUnique(a: seq<Device>, b: seq<Device>)
    requires SortedById(a) && SortedById(b)
    requires Elements(a) == Elements(b)
    ensures a == b
  {
    NoElements(a);
    NoElements(b);
    if a != [] {
      assert a[0] in Elements(b) && b[0] in Elements(a);
      SameHead(a, b);
      SameTail(a, b);
      SortedUnique(a[1..], b[1..]);
      assert a == [a[0]] + a[1..] && b == [b[0]] + b[1..];
    }
  }

  lemma SameHead(a: seq<Device>, b: seq<Device>)
    requires SortedById(a) && SortedById(b) && a != [] && b != []
    requires a[0] in b && b[0] in a
    ensures a[0] == b[0]
  {
    var i :| 0 <= i < |b| && b[i] == a[0];
    var j :| 0 <= j < |a| && a[j] == b[0];
    if 0 < i && 0 < j {
      LessTransitive(a[0].id, b[0].id, a[0].id);
      LessIrreflexive(a[0].id);
    }
  }

  lemma SameTail(a: seq<Device>, b: seq<Device>)
    requires SortedById(a) && SortedById(b) && a != [] && b != [] && a[0] == b[0]
    requires Elements(a) == Elements(b)
    ensures Elements(a[1..]) == Elements(b[1..])
    ensures SortedById(a[1..]) && SortedById(b[1..])
  {
    TailSet(a);
    TailSet(b);
  }

  lemma TailSet(a: seq<Device>)
    requires SortedById(a) && a != []
    ensures Elements(a[1..]) == Elements(a) - {a[0]}
  {
    forall d | d in a[1..]
      ensures d != a[0]
    {
      var i :| 0 <= i < |a[1..]| && a[1..][i] == d;
      assert Less(a[0].id, a[1 + i].id);
      LessIrreflexive(d.id);
    }
    assert a == [a[0]] + a[1..];
  }

  function Insert(d: Device, s: seq<Device>): (r: seq<Device>)
    ensures |r| == |s| + 1
  {
    if s == [] then [d]
    else if Less(d.id, s[0].id) then [d] + s
    else [s[0]] + Insert(d, s[1..])
  }

  lemma {:induction false} InsertElements(d: Device, s: seq<Device>, x: Device)
    ensures x in Insert(d, s) <==> x == d || x in s
  {
    if s != [] && !Less(d.id, s[0].id) {
      InsertElements(d, s[1..], x);
      assert s == [s[0]] + s[1..];
    }
  }

  lemma {:induction false} InsertSorted(d: Device, s: seq<Device>)
    requires SortedById(s)
    requires forall x :: x in s ==> x.id != d.id
    ensures SortedById(Insert(d, s))
  {
    if s != [] {
      if Less(d.id, s[0].id) {
        forall j | 1 <= j < |s|
          ensures Less(d.id, s[j].id)
        {
          LessTransitive(d.id, s[0].id, s[j].id);
        }
      } else {
        LessTotal(d.id, s[0].id);
        InsertSorted(d, s[1..]);
        var r := Insert(d, s[1..]);
        forall j | 0 <= j < |r|
          ensures Less(s[0].id, r[j].id)
        {
          InsertElements(d, s[1..], r[j]);
          assert r[j] in r;
        }
      }
    }
  }

  ghost predicate DistinctIds(s: seq<Device>) {
    forall i, j :: 0 <= i < j < |s| ==> s[i].id != s[j].id
  }

  /** `sort.Slice` by id. */
  function SortById(s: seq<Device>): seq<Device> {
    if s == [] then [] else Insert(s[0], SortById(s[1..]))
  }

  lemma {:induction false} SortByIdSorts(s: seq<Device>)
    requires DistinctIds(s)
    ensures SortedById(SortById(s)) && Elements(SortById(s)) == Elements(s)
  {
    if s != [] {
      SortByIdSorts(s[1..]);
      var t := SortById(s[1..]);
      forall x | x in t
        ensures x.id != s[0].id
      {
        assert x in Elements(s[1..]);
      }
      InsertSorted(s[0], t);
      forall x: Device
        ensures x in Elements(SortById(s)) <==> x in Elements(s)
      {
        InsertElements(s[0], t, x);
        assert x in t <==> x in Elements(s[1..]);
        assert s == [s[0]] + s[1..];
      }
    }
  }

  ghost function InAnyOrder(s: set<Device>): seq<Device> {
    if s == {} then [] else var d :| d in s; [d] + InAnyOrder(s - {d})
  }

  /** The organisation's devices in ascending id order. */
  ghost function FleetOf(st: State, org: Str): seq<Device> {
    SortById(InAnyOrder(DevicesOf(st, org)))
  }

  lemma ConsElements(d: Device, s: seq<Device>)
    requires DistinctIds(s)
    requires forall e :: e in Elements(s) ==> e.id != d.id
    ensures Elements([d] + s) == {d} + Elements(s) && DistinctIds([d] + s)
  {
    forall i | 0 <= i < |s|
      ensures s[i].id != d.id
    {
      assert s[i] in Elements(s);
    }
  }

  lemma {:induction false} InAnyOrderElements(s: set<Device>)
    requires forall d, e :: d in s && e in s && d != e ==> d.id != e.id
    ensures Elements(InAnyOrder(s)) == s && DistinctIds(InAnyOrder(s))
  {
    if s != {} {
      var d :| d in s && InAnyOrder(s) == [d] + InAnyOrder(s - {d});
      InAnyOrderElements(s - {d});
      ConsElements(d, InAnyOrder(s - {d}));
      assert {d} + (s - {d}) == s;
    }
  }

  lemma FleetOfIsFleet(st: State, org: Str)
    requires st.Valid()
    ensures IsFleet(st, org, FleetOf(st, org))
  {
    InAnyOrderElements(DevicesOf(st, org));
    SortByIdSorts(InAnyOrder(DevicesOf(st, org)));
  }

  /** The fleet in full: exactly the devices that are filed with this organisation, each before the next
    by the bytes of their ids. */
  lemma FleetExactly(st: State, org: Str)
    requires st.Valid()
    ensures var ds := FleetOf(st, org);
            && (forall d :: d in ds <==> d.id in st.devices && st.devices[d.id] == d && d.orgId == org)
            && (forall i, j :: 0 <= i < j < |ds| ==> Before(ds[i].id, ds[j].id))
  {
    var ds := FleetOf(st, org);
    FleetOfIsFleet(st, org);
    forall d: Device
      ensures d in ds <==> d.id in st.devices && st.devices[d.id] == d && d.orgId == org
    {
      assert d in ds <==> d in Elements(ds);
      FleetMember(st, org, d);
    }
    forall i, j | 0 <= i < j < |ds|
      ensures Before(ds[i].id, ds[j].id)
    {
      LessIsBefore(ds[i].id, ds[j].id);
    }
  }

  lemma FleetMember(st: State, org: Str, d: Device)
    requires st.Valid()
    ensures d in DevicesOf(st, org) <==> d.id in st.devices && st.devices[d.id] == d && d.orgId == org
  {
    if d in DevicesOf(st, org) {
      var id :| st.OwnedBy(id, org) && st.devices[id] == d;
    }
    if d.id in st.devices && st.devices[d.id] == d && d.orgId == org {
      assert st.OwnedBy(d.id, org);
    }
  }

  // ----- Each operation, field by field -----

  /** An organisation is had from an identity that names one, and in no other way. */
  lemma ScopesExactly(id: Identity, sc: Scope, org: Str)
    ensures ScopeFor(id) == Ok(sc) <==> id.orgId != [] && sc == OrgScope(id.orgId)
    ensures OrgOf(sc) == Ok(org) <==> sc == OrgScope(org) && org != []
    ensures OrgOf(sc).Err? <==> sc == Unscoped || sc == OrgScope([])
  {
  }

  lemma EnrolExactly(st: State, d: Device, id: Str)
    ensures var st' := Step(st, Op.Enrol(d));
            && (d.id == [] || d.orgId == [] ==> st' == st)
            && (d.id != [] && d.orgId != [] ==>
                  && d.id in st'.devices && st'.devices[d.id] == d
                  && (id != d.id ==> (id in st'.devices <==> id in st.devices))
                  && (id != d.id && id in st.devices ==> st'.devices[id] == st.devices[id]))
            && st'.readings == st.readings && st'.audit == st.audit
  {
  }

  /** A reading is kept as it came, under the device's id and with the server's time, after all earlier
    ones of the last 1023; the device's LastSeen is that time; nothing else changes. */
  lemma RecordExactly(st: State, id: Str, r: Reading, now: Time)
    ensures var st' := Step(st, Op.Record(id, r, now));
            var old', new' := st.ReadingsFor(id), st'.ReadingsFor(id);
            && (id !in st.devices ==> st' == st)
            && (id in st.devices ==>
                  && KeptWith(old', Reading(id, r.metric, r.value, r.at, now), new')
                  && st'.devices == st.devices[id := st.devices[id].(lastSeen := now)])
            && (forall other :: other != id ==> st'.ReadingsFor(other) == st.ReadingsFor(other))
            && st'.audit == st.audit
  {
    LastIsKept(st.ReadingsFor(id), Stamp(id, r, now));
  }

  /** The new reading comes last, after as many of the old ones as make 1024 with it. */
  predicate KeptWith(old': seq<Reading>, r: Reading, new': seq<Reading>) {
    && |new'| == (if |old'| < 1024 then |old'| + 1 else 1024)
    && new'[|new'| - 1] == r
    && (forall k :: 0 <= k < |new'| - 1 ==> new'[k] == old'[|old'| + 1 - |new'| + k])
  }

  lemma LastIsKept(old': seq<Reading>, r: Reading)
    ensures KeptWith(old', r, LastN(old' + [r], MAX_READINGS_PER_DEVICE))
  {
  }

  /** An entry is filed last, under the scope's organisation, with the server's time if it had none. */
  lemma AppendExactly(st: State, sc: Scope, e: AuditEntry, now: Time)
    ensures var st' := Step(st, Op.Append(sc, e, now));
            && (sc == Unscoped || sc == OrgScope([]) ==> st' == st)
            && (sc.OrgScope? && sc.org != [] ==>
                  var at := if e.at == 0 then now else e.at;
                  st'.audit == st.audit + [AuditEntry(at, e.actor, sc.org, e.action, e.target, e.outcome, e.reason)])
            && st'.devices == st.devices && st'.readings == st.readings
  {
  }

  // ----- The audit log, entry by entry -----

  predicate Matches(e: AuditEntry, org: Str, prefix: Str) {
    e.orgId == org && |prefix| <= |e.action| && e.action[..|prefix|] == prefix
  }

  /** `at` says where in the log each entry of the answer stands. */
  ghost predicate Picks(audit: seq<AuditEntry>, org: Str, prefix: Str, out: seq<AuditEntry>, at: seq<nat>) {
    && |at| == |out|
    && (forall k :: 0 <= k < |at| ==> at[k] < |audit| && audit[at[k]] == out[k])
    && (forall k, l :: 0 <= k < l < |at| ==> at[k] < at[l])
    && (forall i :: 0 <= i < |audit| ==> (i in at <==> Matches(audit[i], org, prefix)))
  }

  /** The selection is every matching entry, each once, in the order of the log. */
  lemma {:induction false} SelectExactly(audit: seq<AuditEntry>, org: Str, prefix: Str) returns (at: seq<nat>)
    ensures Picks(audit, org, prefix, Select(audit, org, prefix), at)
  {
    at := [];
    if audit != [] {
      var n := |audit| - 1;
      var before := SelectExactly(audit[..n], org, prefix);
      var out := Select(audit[..n], org, prefix);
      if Matches(audit[n], org, prefix) {
        at := before + [n];
        PicksMore(audit, org, prefix, out, before);
      } else {
        at := before;
        assert out + [] == out;
        PicksNoMore(audit, org, prefix, out, before);
      }
    }
  }

  lemma PicksMore(audit: seq<AuditEntry>, org: Str, prefix: Str, out: seq<AuditEntry>, at: seq<nat>)
    requires audit != [] && Picks(audit[..|audit| - 1], org, prefix, out, at)
    requires Matches(audit[|audit| - 1], org, prefix)
    ensures Picks(audit, org, prefix, out + [audit[|audit| - 1]], at + [|audit| - 1])
  {
    var n := |audit| - 1;
    forall i | 0 <= i < |audit|
      ensures i in at + [n] <==> Matches(audit[i], org, prefix)
    {
      assert i < n ==> audit[..n][i] == audit[i];
    }
  }

  lemma PicksNoMore(audit: seq<AuditEntry>, org: Str, prefix: Str, out: seq<AuditEntry>, at: seq<nat>)
    requires audit != [] && Picks(audit[..|audit| - 1], org, prefix, out, at)
    requires !Matches(audit[|audit| - 1], org, prefix)
    ensures Picks(audit, org, prefix, out, at)
  {
    var n := |audit| - 1;
    forall i | 0 <= i < |audit|
      ensures i in at <==> Matches(audit[i], org, prefix)
    {
      assert i < n ==> audit[..n][i] == audit[i];
    }
  }
}
