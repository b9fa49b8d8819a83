/** The enrolled fleet at start-up: checking the decoded fleet file and enrolling it. */
module FleetFile {
  import opened Bytes
  import opened Records
  import opened Store
  import opened Isolation

  datatype FileDevice = FileDevice(id: Str, org: Str, model: Str, firmwareVersion: Str)

  datatype FleetError = NoDevices | Incomplete(index: nat) | Duplicate(index: nat)

  predicate Complete(d: FileDevice) {
    d.id != [] && d.org != []
  }

  predicate Repeats(ds: seq<FileDevice>, i: nat)
    requires i < |ds|
  {
    exists j :: 0 <= j < i && ds[j].id == ds[i].id
  }

  /** The first `n` lines are complete and name no id twice. */
  predicate Clean(ds: seq<FileDevice>, n: nat)
    requires n <= |ds|
  {
    forall i :: 0 <= i < n ==> Complete(ds[i]) && !Repeats(ds, i)
  }

  /** `LoadFleet` after the file is read and decoded. */
  method LoadFleet(ds: seq<FileDevice>) returns (r: Result<seq<Device>, FleetError>)
    ensures r.Ok? <==> ds != [] && Clean(ds, |ds|)
    ensures r.Ok? ==> |r.value| == |ds| && forall i :: 0 <= i < |ds| ==>
              r.value[i] == Device(ds[i].id, ds[i].org, ds[i].model, ds[i].firmwareVersion, ZERO_TIME)
    ensures r == Err(NoDevices) <==> ds == []
    ensures r.Err? && r.error.Incomplete? ==>
              r.error.index < |ds| && Clean(ds, r.error.index) && !Complete(ds[r.error.index])
    ensures r.Err? && r.error.Duplicate? ==>
              && r.error.index < |ds| && Clean(ds, r.error.index)
              && Complete(ds[r.error.index]) && Repeats(ds, r.error.index)
  {
    if |ds| == 0 {
      return Err(NoDevices);
    }
    var out: seq<Device> := [];
    var seen: set<Str> := {};
    for i := 0 to |ds|
      invariant Clean(ds, i)
      invariant |out| == i && forall k :: 0 <= k < i ==>
                  out[k] == Device(ds[k].id, ds[k].org, ds[k].model, ds[k].firmwareVersion, ZERO_TIME)
      invariant forall id :: id in seen <==> exists k :: 0 <= k < i && ds[k].id == id
    {
      var d := ds[i];
      if d.id == [] || d.org == [] {
        return Err(Incomplete(i));
      }
      if d.id in seen {
        return Err(Duplicate(i));
      }
      seen := seen + {d.id};
      out := out + [Device(d.id, d.org, d.model, d.firmwareVersion, ZERO_TIME)];
    }
    return Ok(out);
  }

  function EnrolOps(ds: seq<Device>): (ops: seq<Op>)
    ensures |ops| == |ds|
    ensures forall i :: 0 <= i < |ds| ==> ops[i] == Op.Enrol(ds[i])
  {
    seq(|ds|, i requires 0 <= i < |ds| => Op.Enrol(ds[i]))
  }

  lemma EnrolNext(st: State, ds: seq<Device>, i: nat)
    requires i < |ds|
    ensures Run(st, EnrolOps(ds[..i + 1])) == Step(Run(st, EnrolOps(ds[..i])), Op.Enrol(ds[i]))
  {
    assert ds[..i + 1][..i] == ds[..i];
    assert EnrolOps(ds[..i + 1])[..i] == EnrolOps(ds[..i]);
  }

  predicate AllEnrollable(ds: seq<Device>, n: nat)
    requires n <= |ds|
  {
    forall i :: 0 <= i < n ==> Enrollable(ds[i])
  }

  /** Enrols the devices in order and stops at the first one the store refuses; `done` counts those
    enrolled. */
  method EnrolAll(store: Store, ds: seq<Device>) returns (r: Result<(), StoreError>, ghost done: nat)
    requires store.View().Valid()
    modifies store
    ensures store.View().Valid()
    ensures done <= |ds| && AllEnrollable(ds, done)
    ensures store.View() == Run(old(store.View()), EnrolOps(ds[..done]))
    ensures r == if AllEnrollable(ds, |ds|) then Ok(()) else Err(InvalidDevice)
    ensures if r.Ok? then done == |ds| else done < |ds| && !Enrollable(ds[done])
  {
    ghost var start := store.View();
    done := 0;
    for i := 0 to |ds|
      invariant done == i && AllEnrollable(ds, i)
      invariant store.View().Valid()
      invariant store.View() == Run(start, EnrolOps(ds[..i]))
    {
      r := store.Enrol(ds[i]);
      if r.Err? {
        return;
      }
      EnrolNext(start, ds, i);
      done := i + 1;
    }
    assert ds[..|ds|] == ds;
    r := Ok(());
  }

  /** A fleet as `LoadFleet` hands it over. */
  ghost predicate Fresh(ds: seq<Device>) {
    DistinctIds(ds) && forall i :: 0 <= i < |ds| ==> Enrollable(ds[i])
  }

  lemma LoadedIsFresh(ds: seq<FileDevice>, out: seq<Device>)
    requires Clean(ds, |ds|) && |out| == |ds| && forall i :: 0 <= i < |ds| ==>
               out[i] == Device(ds[i].id, ds[i].org, ds[i].model, ds[i].firmwareVersion, ZERO_TIME)
    ensures Fresh(out)
  {
    forall i, j | 0 <= i < j < |out|
      ensures out[i].id != out[j].id
    {
      assert !Repeats(ds, j);
    }
  }

  /** The store holds exactly these devices, and nothing else. */
  ghost predicate Holds(st: State, ds: seq<Device>) {
    && st.Valid() && st.readings == map[] && st.audit == []
    && (forall id :: id in st.devices ==> st.devices[id] in ds)
    && (forall i :: 0 <= i < |ds| ==> ds[i].id in st.devices && st.devices[ds[i].id] == ds[i])
  }

  lemma {:induction false} EnrolledSoFar(ds: seq<Device>, n: nat)
    requires Fresh(ds) && n <= |ds|
    ensures Holds(Run(EMPTY, EnrolOps(ds[..n])), ds[..n])
  {
    if 0 < n {
      EnrolledSoFar(ds, n - 1);
      EnrolNext(EMPTY, ds, n - 1);
      FrontIsFresh(ds, n);
      OneMore(Run(EMPTY, EnrolOps(ds[..n - 1])), ds[..n - 1], ds[n - 1]);
    }
  }

  lemma FrontIsFresh(ds: seq<Device>, n: nat)
    requires Fresh(ds) && 0 < n <= |ds|
    ensures ds[..n] == ds[..n - 1] + [ds[n - 1]] && Fresh(ds[..n])
  {
  }

  lemma EnrolledExactly(ds: seq<Device>)
    requires Fresh(ds)
    ensures Holds(Run(EMPTY, EnrolOps(ds)), ds)
  {
    EnrolledSoFar(ds, |ds|);
    assert ds[..|ds|] == ds;
  }

  lemma OneMore(st: State, ds: seq<Device>, d: Device)
    requires Fresh(ds + [d]) && Holds(st, ds)
    ensures Holds(AfterEnrol(st, d), ds + [d])
  {
    StepKeepsValid(st, Op.Enrol(d));
    assert (ds + [d])[|ds|] == d;
    forall i | 0 <= i < |ds|
      ensures (ds + [d])[i] == ds[i] && ds[i].id != d.id
    {
      assert (ds + [d])[i].id != (ds + [d])[|ds|].id;
    }
  }

  /** Enrolling a loaded fleet gives every organisation exactly its own lines of the file, in id
    order, no readings and an empty log. */
  lemma StartupFleet(ds: seq<Device>, org: Str)
    requires Fresh(ds)
    ensures var st := Run(EMPTY, EnrolOps(ds));
            && (forall i, j :: 0 <= i < j < |FleetOf(st, org)| ==>
                                 Before(FleetOf(st, org)[i].id, FleetOf(st, org)[j].id))
            && (forall d :: d in FleetOf(st, org) <==> d in ds && d.orgId == org)
            && st.readings == map[] && st.audit == []
  {
    var st := Run(EMPTY, EnrolOps(ds));
    EnrolledExactly(ds);
    FleetOfIsFleet(st, org);
    FleetExactly(st, org);
    forall d: Device
      ensures d in FleetOf(st, org) <==> d in ds && d.orgId == org
    {
      assert d in FleetOf(st, org) <==> d in Elements(FleetOf(st, org));
      if d in ds && d.orgId == org {
        assert st.OwnedBy(d.id, org);
      }
    }
  }

  /** Start-up is the only time devices are enrolled, so the single-home hypothesis holds for the
    whole life of the service, and with it isolation. */
  lemma ServiceIsIsolated(ds: seq<Device>, ops: seq<Op>, org: Str)
    requires Fresh(ds) && forall i :: 0 <= i < |ops| ==> !ops[i].Enrol?
    ensures SingleHome(EnrolOps(ds) + ops)
    ensures Isolated(EnrolOps(ds) + ops, org)
    ensures Attributed(EnrolOps(ds) + ops)
  {
    var all := EnrolOps(ds) + ops;
    forall i, j | 0 <= i < |all| && 0 <= j < |all| && all[i].Enrol? && all[j].Enrol?
                  && all[i].device.id == all[j].device.id
      ensures all[i].device.orgId == all[j].device.orgId
    {
      assert i < |ds| && j < |ds|;
      assert ds[i].id == ds[j].id ==> i == j;
    }
    Noninterference(all, org);
    SingleHomeAttributed(all);
  }
}
