/** Tenant isolation over runs: what one organisation does cannot be seen by another, as long as no
  device id is enrolled into two organisations. */
module Isolation {
  import opened Bytes
  import opened Records

  /** No id is enrolled into two organisations. */
  predicate SingleHome(ops: seq<Op>) {
    forall i, j :: 0 <= i < |ops| && 0 <= j < |ops| && ops[i].Enrol? && ops[j].Enrol?
                   && Enrollable(ops[i].device) && Enrollable(ops[j].device) && ops[i].device.id == ops[j].device.id
                   ==> ops[i].device.orgId == ops[j].device.orgId
  }

  /** The organisation each id was last enrolled into. */
  function Homes(ops: seq<Op>): map<Str, Str> {
    if ops == [] then map[]
    else
      var homes, op := Homes(ops[..|ops| - 1]), ops[|ops| - 1];
      if op.Enrol? && Enrollable(op.device) then homes[op.device.id := op.device.orgId] else homes
  }

  predicate Consistent(ops: seq<Op>, homes: map<Str, Str>) {
    forall i :: 0 <= i < |ops| && ops[i].Enrol? && Enrollable(ops[i].device) ==>
                  ops[i].device.id in homes && homes[ops[i].device.id] == ops[i].device.orgId
  }

  /** Whether an operation is one of the organisation's own. */
  predicate Owns(homes: map<Str, Str>, org: Str, op: Op) {
    match op
    case Enrol(d) => d.orgId == org
    case Record(id, _, _) => id in homes && homes[id] == org
    case Append(sc, _, _) => OrgOf(sc) == Ok(org)
  }

  function Keep(homes: map<Str, Str>, org: Str, ops: seq<Op>): seq<Op> {
    if ops == [] then []
    else
      Keep(homes, org, ops[..|ops| - 1]) + if Owns(homes, org, ops[|ops| - 1]) then [ops[|ops| - 1]] else []
  }

  /** The run with every operation of every other organisation deleted. */
  function OwnOps(org: Str, ops: seq<Op>): seq<Op> {
    Keep(Homes(ops), org, ops)
  }

  /** Two states that an organisation cannot tell apart. */
  ghost predicate SameFor(org: Str, a: State, b: State) {
    && (forall id :: a.OwnedBy(id, org) <==> b.OwnedBy(id, org))
    && (forall id :: a.OwnedBy(id, org) ==> a.devices[id] == b.devices[id])
    && (forall id :: a.OwnedBy(id, org) ==> a.ReadingsFor(id) == b.ReadingsFor(id))
    && (forall prefix :: Select(a.audit, org, prefix) == Select(b.audit, org, prefix))
  }

  ghost predicate Housed(st: State, homes: map<Str, Str>) {
    forall id :: id in st.devices ==> id in homes && homes[id] == st.devices[id].orgId
  }

  lemma SelectAppend(audit: seq<AuditEntry>, e: AuditEntry, org: Str)
    ensures forall prefix :: Select(audit + [e], org, prefix) ==
                             Select(audit, org, prefix)
                             + if e.orgId == org && HasPrefix(e.action, prefix) then [e] else []
  {
    assert (audit + [e])[..|audit|] == audit;
  }

  lemma ForeignStep(homes: map<Str, Str>, org: Str, st: State, op: Op)
    requires Housed(st, homes) && Consistent([op], homes) && !Owns(homes, org, op)
    ensures SameFor(org, Step(st, op), st)
  {
    assert [op][0] == op;
    match op
    case Append(sc, e, now) =>
      if OrgOf(sc).Ok? {
        SelectAppend(st.audit, Filed(sc.org, e, now), org);
      }
      assert forall prefix :: Select(Step(st, op).audit, org, prefix) == Select(st.audit, org, prefix);
    case _ =>
  }

  lemma OwnStep(homes: map<Str, Str>, org: Str, a: State, b: State, op: Op)
    requires Housed(a, homes) && Housed(b, homes) && Consistent([op], homes) && Owns(homes, org, op)
    requires SameFor(org, a, b) && a.Valid() && b.Valid()
    ensures SameFor(org, Step(a, op), Step(b, op))
  {
    match op
    case Append(sc, e, now) =>
      SelectAppend(a.audit, Filed(sc.org, e, now), org);
      SelectAppend(b.audit, Filed(sc.org, e, now), org);
      AppendView(org, a, sc, e, now);
      AppendView(org, b, sc, e, now);
    case Enrol(d) =>
      OwnEnrol(homes, org, a, b, d);
    case Record(id, r, now) =>
      OwnRecord(homes, org, a, b, id, r, now);
  }

  lemma OwnEnrol(homes: map<Str, Str>, org: Str, a: State, b: State, d: Device)
    requires Housed(a, homes) && Housed(b, homes) && Consistent([Op.Enrol(d)], homes) && d.orgId == org
    requires SameFor(org, a, b) && a.Valid() && b.Valid()
    ensures SameFor(org, AfterEnrol(a, d), AfterEnrol(b, d))
  {
    assert [Op.Enrol(d)][0] == Op.Enrol(d);
    forall id
      ensures AfterEnrol(a, d).OwnedBy(id, org) <==> AfterEnrol(b, d).OwnedBy(id, org)
      ensures AfterEnrol(a, d).OwnedBy(id, org) ==> AfterEnrol(a, d).devices[id] == AfterEnrol(b, d).devices[id]
      ensures AfterEnrol(a, d).OwnedBy(id, org) ==> AfterEnrol(a, d).ReadingsFor(id) == AfterEnrol(b, d).ReadingsFor(id)
    {
      assert a.OwnedBy(id, org) <==> b.OwnedBy(id, org);
    }
  }

  lemma OwnRecord(homes: map<Str, Str>, org: Str, a: State, b: State, id: Str, r: Reading, now: Time)
    requires Housed(a, homes) && Housed(b, homes) && id in homes && homes[id] == org
    requires SameFor(org, a, b)
    ensures SameFor(org, AfterRecord(a, id, r, now), AfterRecord(b, id, r, now))
  {
    assert id in a.devices <==> a.OwnedBy(id, org);
    assert id in b.devices <==> b.OwnedBy(id, org);
    RecordView(org, a, id, r, now);
    RecordView(org, b, id, r, now);
  }

  lemma AppendView(org: Str, st: State, sc: Scope, e: AuditEntry, now: Time)
    ensures var st' := AfterAppend(st, sc, e, now);
            && (forall x :: st'.OwnedBy(x, org) <==> st.OwnedBy(x, org))
            && (forall x :: st'.OwnedBy(x, org) ==> st'.devices[x] == st.devices[x])
            && (forall x :: st'.ReadingsFor(x) == st.ReadingsFor(x))
  {
  }

  lemma RecordView(org: Str, st: State, id: Str, r: Reading, now: Time)
    ensures var st' := AfterRecord(st, id, r, now);
            && (forall x :: st'.OwnedBy(x, org) <==> st.OwnedBy(x, org))
            && (forall x :: st'.OwnedBy(x, org) && x != id ==> st'.devices[x] == st.devices[x])
            && (forall x :: x != id ==> st'.ReadingsFor(x) == st.ReadingsFor(x))
  {
  }

  lemma HousedStep(homes: map<Str, Str>, st: State, op: Op)
    requires Housed(st, homes) && Consistent([op], homes)
    ensures Housed(Step(st, op), homes)
  {
    assert [op][0] == op;
  }

  lemma {:induction false} KeepSame(homes: map<Str, Str>, org: Str, ops: seq<Op>)
    requires Consistent(ops, homes)
    ensures SameFor(org, Run(EMPTY, ops), Run(EMPTY, Keep(homes, org, ops)))
    ensures Housed(Run(EMPTY, ops), homes) && Housed(Run(EMPTY, Keep(homes, org, ops)), homes)
  {
    if ops != [] {
      var before, op := ops[..|ops| - 1], ops[|ops| - 1];
      KeepSame(homes, org, before);
      RunKeepsValid(EMPTY, before);
      RunKeepsValid(EMPTY, Keep(homes, org, before));
      var a, b := Run(EMPTY, before), Run(EMPTY, Keep(homes, org, before));
      HousedStep(homes, a, op);
      if Owns(homes, org, op) {
        RunAppend(EMPTY, Keep(homes, org, before), [op]);
        HousedStep(homes, b, op);
        OwnStep(homes, org, a, b, op);
      } else {
        ForeignStep(homes, org, a, op);
        assert Keep(homes, org, ops) == Keep(homes, org, before);
      }
    }
  }

  lemma {:induction false} HomesConsistent(ops: seq<Op>)
    requires SingleHome(ops)
    ensures Consistent(ops, Homes(ops))
    ensures forall id :: id in Homes(ops) ==>
                           exists i :: 0 <= i < |ops| && ops[i].Enrols(id) && ops[i].device.orgId == Homes(ops)[id]
  {
    if ops != [] {
      var before, op := ops[..|ops| - 1], ops[|ops| - 1];
      HomesConsistent(before);
      forall id | id in Homes(ops)
        ensures exists i :: 0 <= i < |ops| && ops[i].Enrols(id) && ops[i].device.orgId == Homes(ops)[id]
      {
        if !op.Enrols(id) {
          var i :| 0 <= i < |before| && before[i].Enrols(id) && before[i].device.orgId == Homes(before)[id];
          assert ops[i].Enrols(id);
        } else {
          assert ops[|ops| - 1].Enrols(id);
        }
      }
      forall i | 0 <= i < |ops| && ops[i].Enrol? && Enrollable(ops[i].device)
        ensures ops[i].device.id in Homes(ops) && Homes(ops)[ops[i].device.id] == ops[i].device.orgId
      {
        if i < |before| {
          assert before[i] == ops[i];
        }
      }
    }
  }

  /** Every query of the store answers an organisation the same in both states. */
  ghost predicate SameAnswers(org: Str, a: State, b: State) {
    && FleetOf(a, org) == FleetOf(b, org)
    && (forall id, limit :: ReadingsOf(a, org, id, limit) == ReadingsOf(b, org, id, limit))
    && (forall prefix :: AuditOf(a, org, prefix) == AuditOf(b, org, prefix))
  }

  lemma SameForSameAnswers(org: Str, a: State, b: State)
    requires SameFor(org, a, b)
    ensures SameAnswers(org, a, b)
  {
    forall d: Device
      ensures d in DevicesOf(a, org) <==> d in DevicesOf(b, org)
    {
      if d in DevicesOf(a, org) {
        var id :| a.OwnedBy(id, org) && a.devices[id] == d;
        assert b.OwnedBy(id, org) && b.devices[id] == d;
      }
      if d in DevicesOf(b, org) {
        var id :| b.OwnedBy(id, org) && b.devices[id] == d;
        assert a.OwnedBy(id, org) && a.devices[id] == d;
      }
    }
    assert DevicesOf(a, org) == DevicesOf(b, org);
  }

  /** Deleting everything the other organisations did changes no answer given to this one. */
  ghost predicate Isolated(ops: seq<Op>, org: Str) {
    SameAnswers(org, Run(EMPTY, ops), Run(EMPTY, OwnOps(org, ops)))
  }

  /** Noninterference, as long as no id is enrolled into two organisations. */
  lemma Noninterference(ops: seq<Op>, org: Str)
    requires SingleHome(ops)
    ensures Isolated(ops, org)
  {
    HomesConsistent(ops);
    KeepSame(Homes(ops), org, ops);
    SameForSameAnswers(org, Run(EMPTY, ops), Run(EMPTY, OwnOps(org, ops)));
  }

  /** So two histories that differ only in what others did are indistinguishable. */
  lemma OthersAreInvisible(a: seq<Op>, b: seq<Op>, org: Str)
    requires SingleHome(a) && SingleHome(b) && OwnOps(org, a) == OwnOps(org, b)
    ensures SameAnswers(org, Run(EMPTY, a), Run(EMPTY, b))
  {
    Noninterference(a, org);
    Noninterference(b, org);
  }

  /** A device id of another organisation answers exactly as an id nobody ever enrolled. */
  lemma ForeignDeviceLooksUnknown(st: State, org: Str, foreign: Str, unknown: Str, limit: int)
    requires foreign in st.devices && st.devices[foreign].orgId != org && unknown !in st.devices
    ensures ReadingsOf(st, org, foreign, limit) == ReadingsOf(st, org, unknown, limit)
    ensures forall d :: d in DevicesOf(st, org) ==> d.orgId == org
  {
  }

  // ----- Exactly when it holds -----

  /** The store call that can break isolation: enrolling a known id into another organisation. */
  predicate Moves(st: State, op: Op) {
    && op.Enrol? && Enrollable(op.device)
    && op.device.id in st.devices && st.devices[op.device.id].orgId != op.device.orgId
  }

  predicate EnrolsFor(op: Op, id: Str, org: Str) {
    op.Enrols(id) && op.device.orgId == org
  }

  /** In a run of an organisation's own operations alone it owns every id that was enrolled for it. */
  lemma {:induction false} KeptOwned(homes: map<Str, Str>, org: Str, ops: seq<Op>, id: Str, i: nat)
    requires i < |ops| && EnrolsFor(ops[i], id, org)
    ensures Run(EMPTY, Keep(homes, org, ops)).OwnedBy(id, org)
  {
    var before, op := ops[..|ops| - 1], ops[|ops| - 1];
    var kept := Keep(homes, org, before);
    if Owns(homes, org, op) {
      RunStep(kept, op);
    } else {
      assert kept + [] == kept;
    }
    if i < |before| {
      KeptOwned(homes, org, before, id, i);
      if Owns(homes, org, op) {
        StaysOwned(homes, org, Run(EMPTY, kept), op, id);
      }
    }
  }

  lemma StaysOwned(homes: map<Str, Str>, org: Str, st: State, op: Op, id: Str)
    requires st.OwnedBy(id, org) && Owns(homes, org, op)
    ensures Step(st, op).OwnedBy(id, org)
  {
  }

  /** An organisation sees a device in its fleet exactly when it owns it. */
  lemma FleetShowsOwned(a: State, b: State, org: Str, id: Str)
    requires a.Valid() && b.Valid() && FleetOf(a, org) == FleetOf(b, org) && a.OwnedBy(id, org)
    ensures b.OwnedBy(id, org)
  {
    FleetOfIsFleet(a, org);
    FleetOfIsFleet(b, org);
    assert a.devices[id] in DevicesOf(a, org);
    assert a.devices[id] in DevicesOf(b, org);
  }

  /** The previous owner of an id sees that it is gone, though nobody but the other organisation acted. */
  lemma MoveIsSeen(ops: seq<Op>, op: Op)
    requires SingleHome(ops) && Moves(Run(EMPTY, ops), op)
    ensures !Isolated(ops + [op], Run(EMPTY, ops).devices[op.device.id].orgId)
  {
    var id := op.device.id;
    var org := Run(EMPTY, ops).devices[id].orgId;
    var full, kept := Run(EMPTY, ops + [op]), Run(EMPTY, OwnOps(org, ops + [op]));
    HomesConsistent(ops);
    KeepSame(Homes(ops), org, ops);
    var i :| 0 <= i < |ops| && ops[i].Enrols(id) && ops[i].device.orgId == org;
    assert (ops + [op])[i] == ops[i];
    KeptOwned(Homes(ops + [op]), org, ops + [op], id, i);
    RunStep(ops, op);
    RunKeepsValid(EMPTY, ops + [op]);
    RunKeepsValid(EMPTY, OwnOps(org, ops + [op]));
    if FleetOf(full, org) == FleetOf(kept, org) {
      FleetShowsOwned(kept, full, org, id);
    }
  }

  lemma MoveEndsSingleHome(ops: seq<Op>, op: Op)
    requires SingleHome(ops)
    ensures SingleHome(ops + [op]) <==> !Moves(Run(EMPTY, ops), op)
  {
    var st, all := Run(EMPTY, ops), ops + [op];
    HomesConsistent(ops);
    KeepSame(Homes(ops), [], ops);
    if Moves(st, op) {
      var i :| 0 <= i < |ops| && ops[i].Enrols(op.device.id) && ops[i].device.orgId == Homes(ops)[op.device.id];
      assert all[i] == ops[i] && all[|ops|] == op;
    } else if op.Enrol? && Enrollable(op.device) {
      forall i | 0 <= i < |ops| && ops[i].Enrols(op.device.id)
        ensures ops[i].device.orgId == op.device.orgId
      {
        KnownDevices(EMPTY, ops, op.device.id);
      }
    }
  }

  /** One step further: every organisation stays isolated if and only if the call does not enrol a known
    id into another organisation, which a caller can look up first. */
  lemma IsolationStep(ops: seq<Op>, op: Op)
    requires SingleHome(ops)
    ensures (forall org :: Isolated(ops + [op], org)) <==> !Moves(Run(EMPTY, ops), op)
  {
    MoveEndsSingleHome(ops, op);
    if Moves(Run(EMPTY, ops), op) {
      MoveIsSeen(ops, op);
    } else {
      forall org
        ensures Isolated(ops + [op], org)
      {
        Noninterference(ops + [op], org);
      }
    }
  }

  lemma SingleHomePrefix(ops: seq<Op>, n: nat)
    requires SingleHome(ops) && n <= |ops|
    ensures SingleHome(ops[..n])
  {
    assert forall i :: 0 <= i < n ==> ops[..n][i] == ops[i];
  }

  /** The exact condition: every organisation is isolated throughout a run if and only if no id is
    enrolled into two organisations. */
  lemma {:induction false} IsolatedIffSingleHome(ops: seq<Op>)
    ensures SingleHome(ops) <==> forall n: nat, org :: n <= |ops| ==> Isolated(ops[..n], org)
  {
    if SingleHome(ops) {
      forall n: nat, org | n <= |ops|
        ensures Isolated(ops[..n], org)
      {
        SingleHomePrefix(ops, n);
        Noninterference(ops[..n], org);
      }
    } else {
      var n, org := FirstLeak(ops);
    }
  }

  lemma {:induction false} FirstLeak(ops: seq<Op>) returns (n: nat, org: Str)
    requires !SingleHome(ops)
    ensures n <= |ops| && !Isolated(ops[..n], org)
  {
    var before, op := ops[..|ops| - 1], ops[|ops| - 1];
    assert ops == before + [op];
    if SingleHome(before) {
      MoveEndsSingleHome(before, op);
      MoveIsSeen(before, op);
      n, org := |ops|, Run(EMPTY, before).devices[op.device.id].orgId;
      assert ops[..n] == ops;
    } else {
      n, org := FirstLeak(before);
      assert before[..n] == ops[..n];
    }
  }

  // ----- Whose readings an organisation reads -----

  /** The organisations the device belonged to as each reading of its history came in. */
  ghost function Owners(ops: seq<Op>, id: Str): seq<Str> {
    if ops == [] then []
    else
      var before, op := ops[..|ops| - 1], ops[|ops| - 1];
      var st := Run(EMPTY, before);
      Owners(before, id) + if op.Record? && op.deviceId == id && id in st.devices then [st.devices[id].orgId] else []
  }

  /** Every retained reading came in under the organisation that can read it now. */
  ghost predicate Attributed(ops: seq<Op>) {
    forall id, k :: var st := Run(EMPTY, ops);
                    var owners := LastN(Owners(ops, id), MAX_READINGS_PER_DEVICE);
                    id in st.devices && 0 <= k < |owners| ==> owners[k] == st.devices[id].orgId
  }

  lemma {:induction false} OneOwnerPerReading(ops: seq<Op>, id: Str)
    ensures |Run(EMPTY, ops).ReadingsFor(id)| == |LastN(Owners(ops, id), MAX_READINGS_PER_DEVICE)|
    ensures id !in Run(EMPTY, ops).devices ==> Owners(ops, id) == []
  {
    if ops != [] {
      OneOwnerPerReading(ops[..|ops| - 1], id);
    }
  }

  /** The store call that can break attribution: moving a device that has readings. */
  predicate Rehomes(st: State, op: Op) {
    Moves(st, op) && st.ReadingsFor(op.device.id) != []
  }

  lemma OwnersAppend(ops: seq<Op>, op: Op, id: Str)
    ensures var st := Run(EMPTY, ops);
            Owners(ops + [op], id) ==
            Owners(ops, id) + if op.Record? && op.deviceId == id && id in st.devices then [st.devices[id].orgId] else []
  {
    assert (ops + [op])[..|ops|] == ops;
  }

  lemma RunStep(ops: seq<Op>, op: Op)
    ensures Run(EMPTY, ops + [op]) == Step(Run(EMPTY, ops), op)
  {
    assert (ops + [op])[..|ops|] == ops;
  }

  lemma AttributionStep(ops: seq<Op>, op: Op)
    requires Attributed(ops)
    ensures Attributed(ops + [op]) <==> !Rehomes(Run(EMPTY, ops), op)
  {
    if Rehomes(Run(EMPTY, ops), op) {
      RehomingBreaks(ops, op);
    } else {
      RunStep(ops, op);
      forall id, k |
        id in Run(EMPTY, ops + [op]).devices && 0 <= k < |LastN(Owners(ops + [op], id), MAX_READINGS_PER_DEVICE)|
        ensures LastN(Owners(ops + [op], id), MAX_READINGS_PER_DEVICE)[k] == Run(EMPTY, ops + [op]).devices[id].orgId
      {
        AttributedAt(ops, op, id, k);
      }
    }
  }

  lemma RehomingBreaks(ops: seq<Op>, op: Op)
    requires Attributed(ops) && Rehomes(Run(EMPTY, ops), op)
    ensures !Attributed(ops + [op])
  {
    var id := op.device.id;
    RunStep(ops, op);
    OwnersAppend(ops, op, id);
    OneOwnerPerReading(ops, id);
    assert Owners(ops, id) + [] == Owners(ops, id);
    var st, owners := Run(EMPTY, ops), LastN(Owners(ops, id), MAX_READINGS_PER_DEVICE);
    assert owners[0] == st.devices[id].orgId;
  }

  lemma AttributedAt(ops: seq<Op>, op: Op, id: Str, k: nat)
    requires Attributed(ops) && !Rehomes(Run(EMPTY, ops), op)
    requires id in Step(Run(EMPTY, ops), op).devices && k < |LastN(Owners(ops + [op], id), MAX_READINGS_PER_DEVICE)|
    ensures LastN(Owners(ops + [op], id), MAX_READINGS_PER_DEVICE)[k] == Step(Run(EMPTY, ops), op).devices[id].orgId
  {
    var st, owners := Run(EMPTY, ops), Owners(ops, id);
    OwnersAppend(ops, op, id);
    OneOwnerPerReading(ops, id);
    AttributedDevice(ops, id);
    if op.Record? && op.deviceId == id && id in st.devices {
      LastNSame(owners, st.devices[id].orgId);
    } else {
      assert owners + [] == owners;
      StaysHome(st, op, id);
    }
  }

  lemma AttributedDevice(ops: seq<Op>, id: Str)
    requires Attributed(ops)
    ensures var st := Run(EMPTY, ops);
            id in st.devices ==> AllSame(LastN(Owners(ops, id), MAX_READINGS_PER_DEVICE), st.devices[id].orgId)
  {
  }

  lemma LastNSame(owners: seq<Str>, org: Str)
    requires AllSame(LastN(owners, MAX_READINGS_PER_DEVICE), org)
    ensures AllSame(LastN(owners + [org], MAX_READINGS_PER_DEVICE), org)
  {
    LastNAppend(owners, org, MAX_READINGS_PER_DEVICE);
  }

  lemma StaysHome(st: State, op: Op, id: Str)
    requires !Rehomes(st, op) && st.ReadingsFor(id) != [] && id in st.devices
    ensures id in Step(st, op).devices && Step(st, op).devices[id].orgId == st.devices[id].orgId
  {
  }

  predicate AllSame(owners: seq<Str>, org: Str) {
    forall i :: 0 <= i < |owners| ==> owners[i] == org
  }

  /** Under the single-home hypothesis no step re-homes a device, so every reading an organisation can
    see came in while the device was its own. */
  lemma {:induction false} SingleHomeAttributed(ops: seq<Op>)
    requires SingleHome(ops)
    ensures Attributed(ops)
  {
    if ops != [] {
      var before, op := ops[..|ops| - 1], ops[|ops| - 1];
      SingleHomeAttributed(before);
      HomesConsistent(ops);
      KeepSame(Homes(ops), [], before);
      AttributionStep(before, op);
      assert ops == before + [op];
    }
  }

  /** Two enrolments of one id are enough to break isolation, though not attribution: the first owner
    sees its device disappear. */
  lemma TakeoverIsSeen(a: Device, b: Device)
    requires Enrollable(a) && Enrollable(b) && a.id == b.id && a.orgId != b.orgId
    ensures var ops := [Op.Enrol(a), Op.Enrol(b)];
            !Isolated(ops, a.orgId) && Attributed(ops)
  {
    var pre := [Op.Enrol(a)];
    assert pre + [Op.Enrol(b)] == [Op.Enrol(a), Op.Enrol(b)];
    RunStep([], Op.Enrol(a));
    assert [] + pre == pre;
    MoveIsSeen(pre, Op.Enrol(b));
    SingleHomeAttributed(pre);
    AttributionStep(pre, Op.Enrol(b));
  }

  /** If the device had sent something, the new owner also reads what it sent for the previous one. */
  lemma TakeoverLeaks(a: Device, b: Device, r: Reading, now: Time)
    requires Enrollable(a) && Enrollable(b) && a.id == b.id && a.orgId != b.orgId
    ensures var ops := [Op.Enrol(a), Op.Record(a.id, r, now), Op.Enrol(b)];
            && ReadingsOf(Run(EMPTY, ops), b.orgId, b.id, 0) == [Stamp(b.id, r, now)]
            && !Attributed(ops) && !Isolated(ops, a.orgId)
  {
    var pre := [Op.Enrol(a), Op.Record(a.id, r, now)];
    assert pre + [Op.Enrol(b)] == [Op.Enrol(a), Op.Record(a.id, r, now), Op.Enrol(b)];
    RunThree(EMPTY, Op.Enrol(a), Op.Record(a.id, r, now), Op.Enrol(b));
    assert AfterEnrol(EMPTY, a).ReadingsFor(a.id) == [];
    SingleHomeAttributed(pre);
    RehomingBreaks(pre, Op.Enrol(b));
    MoveIsSeen(pre, Op.Enrol(b));
  }
}
