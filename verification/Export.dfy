/** The fleet export of the dashboard: the rows of the CSV file, before quoting and number and time
  formatting. */
module Export {
  import opened Bytes
  import opened Records
  import opened Store
  import opened Flatten
  import opened Csv
  import opened Retention
  import opened Isolation

  const EXPORT_READINGS_PER_DEVICE: int := 500
  const QUOTE: Byte := 39

  datatype Row = Header | Data(deviceId: Str, model: Str, metric: Str, value: Number, receivedAt: Time)

  const FORMULA_STARTS: seq<Byte> := [61, 43, 45, 64, 9, 13]

  /** Equals, plus, minus, at, tab and carriage return make a spreadsheet read a cell as a formula. */
  predicate StartsFormula(field: Str) {
    field != [] && field[0] in FORMULA_STARTS
  }

  function CsvSafe(field: Str): Str {
    if StartsFormula(field) then [QUOTE] + field else field
  }

  function RowOf(d: Device, r: Reading): Row {
    Data(CsvSafe(d.id), CsvSafe(d.model), CsvSafe(r.metric), r.value, r.receivedAt)
  }

  function RowsOf(d: Device, rs: seq<Reading>): (rows: seq<Row>)
    ensures |rows| == |rs|
    ensures forall i :: 0 <= i < |rs| ==> rows[i] == RowOf(d, rs[i])
  {
    seq(|rs|, i requires 0 <= i < |rs| => RowOf(d, rs[i]))
  }

  /** The rows of each device. */
  function DeviceRows(st: State, org: Str): Device -> seq<Row> {
    (d: Device) => RowsOf(d, ReadingsOf(st, org, d.id, EXPORT_READINGS_PER_DEVICE))
  }

  /** The complete file: the header, then the fleet device by device. */
  ghost function Report(st: State, org: Str): seq<Row> {
    [Header] + Concat(DeviceRows(st, org), FleetOf(st, org))
  }

  /** The export handler on a store that does not change meanwhile. It stops at the first row that the
    writer does not take, and never learns how the final flush went. */
  method ExportFleet(store: Store, sc: Scope, out: Writer<Row>) returns (r: Result<(), StoreError>)
    requires store.View().Valid() && out.View() == NOTHING
    modifies out
    ensures r == if OrgOf(sc).Err? then Err(NoTenantScope) else Ok(())
    ensures out.View() == if r.Err? then NOTHING else Final(out.encode, out.push, Report(store.View(), sc.org))
  {
    var devices := store.Fleet(sc);
    if devices.Err? {
      return Err(devices.error);
    }
    ghost var f := DeviceRows(store.View(), sc.org);
    ghost var body := Concat(f, devices.value);
    PutOne(out.encode, out.push, [], Header);
    assert [] + [Header] == [Header] == [Header] + body[..0];
    var headed := out.Write(Header);
    if headed {
      WriteFleet(store, sc, devices.value, out, f);
    } else {
      FailedRest(out.encode, out.push, [Header], body, 0);
    }
    out.Flush();
    return Ok(());
  }

  /** The outer loop. */
  method WriteFleet(store: Store, sc: Scope, devices: seq<Device>, out: Writer<Row>, ghost f: Device -> seq<Row>)
    requires OrgOf(sc).Ok? && f == DeviceRows(store.View(), sc.org)
    requires out.View() == PutAll(out.encode, out.push, [Header]) && !out.failed
    modifies out
    ensures out.View() == PutAll(out.encode, out.push, [Header] + Concat(f, devices))
  {
    ghost var body := Concat(f, devices);
    assert devices[..|devices|] == devices && [Header] + Concat(f, devices[..0]) == [Header];
    for i := 0 to |devices|
      invariant out.View() == PutAll(out.encode, out.push, [Header] + Concat(f, devices[..i])) && !out.failed
    {
      ghost var rows, n := [Header] + Concat(f, devices[..i]), |Concat(f, devices[..i + 1])|;
      var complete := WriteDevice(store, sc, devices[i], out, rows, f);
      ConcatStep(f, devices, i);
      ConcatAssoc([Header], Concat(f, devices[..i]), f(devices[i]));
      if !complete {
        ConcatGrows(f, devices, i + 1, |devices|);
        assert body[..n] == Concat(f, devices[..i + 1]);
        FailedRest(out.encode, out.push, [Header], body, n);
        return;
      }
    }
  }

  /** The inner loop: the rows of one device. */
  method WriteDevice(store: Store, sc: Scope, d: Device, out: Writer<Row>, ghost rows: seq<Row>,
                     ghost f: Device -> seq<Row>)
    returns (complete: bool)
    requires OrgOf(sc).Ok? && f == DeviceRows(store.View(), sc.org)
    requires out.View() == PutAll(out.encode, out.push, rows) && !out.failed
    modifies out
    ensures out.View() == PutAll(out.encode, out.push, rows + f(d))
    ensures complete == !out.failed
  {
    var readings := store.Readings(sc, d.id, EXPORT_READINGS_PER_DEVICE);
    complete := WriteReadings(d, readings.value, out, rows);
  }

  method WriteReadings(d: Device, readings: seq<Reading>, out: Writer<Row>, ghost rows: seq<Row>)
    returns (complete: bool)
    requires out.View() == PutAll(out.encode, out.push, rows) && !out.failed
    modifies out
    ensures out.View() == PutAll(out.encode, out.push, rows + RowsOf(d, readings))
    ensures complete == !out.failed
  {
    ghost var due := RowsOf(d, readings);
    assert rows + due[..0] == rows && due[..|due|] == due;
    for j := 0 to |readings|
      invariant out.View() == PutAll(out.encode, out.push, rows + due[..j]) && !out.failed
    {
      PutNext(out.encode, out.push, rows, due, j);
      complete := out.Write(RowOf(d, readings[j]));
      if !complete {
        FailedRest(out.encode, out.push, rows, due, j + 1);
        return;
      }
    }
    complete := true;
  }

  // ----- What the file contains -----

  /** The row of the `k`-th newest reading of a history, among the newest 500. */
  predicate IsNewestRow(h: seq<Reading>, d: Device, k: nat, row: Row) {
    && k < 500 && k < |h|
    && var r := h[|h| - 1 - k];
       row == Data(CsvSafe(d.id), CsvSafe(d.model), CsvSafe(r.metric), r.value, r.receivedAt)
  }

  lemma NewestRows(h: seq<Reading>, rs: seq<Reading>, d: Device)
    requires rs == Reverse(LastN(h, EXPORT_READINGS_PER_DEVICE))
    ensures |rs| == (if |h| <= 500 then |h| else 500)
    ensures forall k :: 0 <= k < |rs| ==> IsNewestRow(h, d, k, RowsOf(d, rs)[k])
  {
  }

  /** Over every run, a device's rows are the newest 500 readings of its whole history, newest first, or
    all of them if there are fewer. */
  lemma DeviceRowsAreNewest(ops: seq<Op>, org: Str, d: Device)
    requires Run(EMPTY, ops).OwnedBy(d.id, org)
    ensures var rows := DeviceRows(Run(EMPTY, ops), org)(d);
            var n := |History(ops, d.id)|;
            && |rows| == (if n <= 500 then n else 500)
            && forall k :: 0 <= k < |rows| ==> IsNewestRow(History(ops, d.id), d, k, rows[k])
  {
    ReadingsAreNewest(ops, org, d.id, EXPORT_READINGS_PER_DEVICE);
    NewestRows(History(ops, d.id), ReadingsOf(Run(EMPTY, ops), org, d.id, EXPORT_READINGS_PER_DEVICE), d);
  }

  lemma MemberHasIndex<T>(s: seq<T>, x: T) returns (i: nat)
    requires x in s
    ensures i < |s| && s[i] == x
  {
    i :| i < |s| && s[i] == x;
  }

  /** The query: one of the organisation's own devices joined with one of its newest 500 readings. */
  ghost predicate Queried(ops: seq<Op>, org: Str, row: Row, d: Device, k: nat) {
    d in DevicesOf(Run(EMPTY, ops), org) && IsNewestRow(History(ops, d.id), d, k, row)
  }

  /** Every row of the file is the query's. */
  lemma RowIsQueried(ops: seq<Op>, org: Str, row: Row) returns (d: Device, k: nat)
    requires row in Concat(DeviceRows(Run(EMPTY, ops), org), FleetOf(Run(EMPTY, ops), org))
    ensures Queried(ops, org, row, d, k)
  {
    var st := Run(EMPTY, ops);
    RunKeepsValid(EMPTY, ops);
    FleetOfIsFleet(st, org);
    ConcatMembers(DeviceRows(st, org), FleetOf(st, org), row);
    var i :| 0 <= i < |FleetOf(st, org)| && row in DeviceRows(st, org)(FleetOf(st, org)[i]);
    d := FleetOf(st, org)[i];
    OwnDevice(st, org, FleetOf(st, org), i);
    DeviceRowsAreNewest(ops, org, d);
    k := MemberHasIndex(DeviceRows(st, org)(d), row);
  }

  /** Every row of the query is in the file. */
  lemma QueriedIsRow(ops: seq<Op>, org: Str, row: Row, d: Device, k: nat)
    requires Queried(ops, org, row, d, k)
    ensures row in Concat(DeviceRows(Run(EMPTY, ops), org), FleetOf(Run(EMPTY, ops), org))
  {
    FleetHas(ops, org, d);
    RowsHave(ops, org, d, k, row);
    RowIsThere(DeviceRows(Run(EMPTY, ops), org), FleetOf(Run(EMPTY, ops), org), d, row);
  }

  lemma FleetHas(ops: seq<Op>, org: Str, d: Device)
    requires d in DevicesOf(Run(EMPTY, ops), org)
    ensures d in FleetOf(Run(EMPTY, ops), org) && Run(EMPTY, ops).OwnedBy(d.id, org)
  {
    RunKeepsValid(EMPTY, ops);
    FleetOfIsFleet(Run(EMPTY, ops), org);
    assert d in Elements(FleetOf(Run(EMPTY, ops), org));
  }

  lemma RowsHave(ops: seq<Op>, org: Str, d: Device, k: nat, row: Row)
    requires Run(EMPTY, ops).OwnedBy(d.id, org) && IsNewestRow(History(ops, d.id), d, k, row)
    ensures row in DeviceRows(Run(EMPTY, ops), org)(d)
  {
    var h, rows := History(ops, d.id), DeviceRows(Run(EMPTY, ops), org)(d);
    assert k < |rows| && IsNewestRow(h, d, k, rows[k]) by {
      DeviceRowsAreNewest(ops, org, d);
    }
    OneRow(h, d, k, rows, row);
  }

  lemma OneRow(h: seq<Reading>, d: Device, k: nat, rows: seq<Row>, row: Row)
    requires k < |rows| && IsNewestRow(h, d, k, rows[k]) && IsNewestRow(h, d, k, row)
    ensures row in rows
  {
    assert rows[k] == row;
  }

  lemma RowIsThere<T, U>(rows: T -> seq<U>, items: seq<T>, item: T, row: U)
    requires item in items && row in rows(item)
    ensures row in Concat(rows, items)
  {
    var i := MemberHasIndex(items, item);
    ConcatMembers(rows, items, row);
  }

  /** Over every run, the rows after the header are exactly those of the query: the organisation's own
    devices joined with the newest 500 readings of each. */
  lemma ReportIsQuery(ops: seq<Op>, org: Str, row: Row)
    ensures row in Report(Run(EMPTY, ops), org)[1..] <==>
            exists d, k :: Queried(ops, org, row, d, k)
  {
    var st := Run(EMPTY, ops);
    var body := Concat(DeviceRows(st, org), FleetOf(st, org));
    assert ([Header] + body)[1..] == body;
    if row in body {
      var d, k := RowIsQueried(ops, org, row);
    }
    if d, k :| Queried(ops, org, row, d, k) {
      QueriedIsRow(ops, org, row, d, k);
    }
  }

  lemma OwnDevice(st: State, org: Str, fleet: seq<Device>, i: nat)
    requires st.Valid() && IsFleet(st, org, fleet) && i < |fleet|
    ensures fleet[i] in DevicesOf(st, org) && st.OwnedBy(fleet[i].id, org)
  {
    assert fleet[i] in Elements(fleet);
  }

  /** Of any two rows after the header, the earlier one belongs to a device with a smaller id, or to the
    same device, which then has at most 500 rows in all, in one stretch. */
  lemma ReportInOrder(st: State, org: Str, r: nat, s: nat) returns (i: nat, j: nat)
    requires st.Valid() && r < s < |Concat(DeviceRows(st, org), FleetOf(st, org))|
    ensures var f, ds := DeviceRows(st, org), FleetOf(st, org);
            && From(f, ds, r, i) && From(f, ds, s, j)
            && (i == j || Before(ds[i].id, ds[j].id))
            && |f(ds[i])| <= 500
  {
    var f, ds := DeviceRows(st, org), FleetOf(st, org);
    FleetOfIsFleet(st, org);
    i := EachRowHasSource(f, ds, r);
    j := EachRowHasSource(f, ds, s);
    SourcesInOrder(f, ds, r, i, s, j);
    FleetExactly(st, org);
  }

  predicate Harmless(cell: Str) {
    cell == [] || (cell[0] !in Ascii("=+-@") && cell[0] != 9 && cell[0] != 13)
  }

  lemma SafeIsHarmless(cell: Str)
    ensures Harmless(cell) <==> !StartsFormula(cell)
  {
    assert Ascii("=+-@") == [61, 43, 45, 64];
  }

  /** No text cell of the file can be read as a formula. */
  lemma ReportIsSafe(st: State, org: Str, row: Row)
    requires row in Report(st, org)
    ensures row.Header? || (Harmless(row.deviceId) && Harmless(row.model) && Harmless(row.metric))
  {
    var f, fleet := DeviceRows(st, org), FleetOf(st, org);
    if row in Concat(f, fleet) {
      ConcatMembers(f, fleet, row);
      var i :| 0 <= i < |fleet| && row in f(fleet[i]);
      DeviceRowsAreSafe(st, org, fleet[i], row);
      SafeIsHarmless(row.deviceId);
      SafeIsHarmless(row.model);
      SafeIsHarmless(row.metric);
    }
  }

  lemma DeviceRowsAreSafe(st: State, org: Str, d: Device, row: Row)
    requires row in DeviceRows(st, org)(d)
    ensures row.Data? && !StartsFormula(row.deviceId) && !StartsFormula(row.model) && !StartsFormula(row.metric)
  {
    var k := MemberHasIndex(DeviceRows(st, org)(d), row);
    assert row == RowOf(d, ReadingsOf(st, org, d.id, EXPORT_READINGS_PER_DEVICE)[k]);
  }

  /** Exactly what is done to a text cell: one that starts with `=`, `+`, `-`, `@`, a tab or a carriage return
    gets an apostrophe in front, any other stays as it is. */
  lemma CsvSafeExactly(field: Str)
    ensures CsvSafe(field) ==
            if field != [] && (field[0] in Ascii("=+-@") || field[0] == 9 || field[0] == 13) then Ascii("'") + field
            else field
  {
    assert Ascii("=+-@") == [61, 43, 45, 64] && Ascii("'") == [39];
  }

  /** Two fields look the same in the file exactly when they are the same, or one is the other with the
    protecting quote already in front. */
  lemma CsvSafeConfuses(a: Str, b: Str)
    ensures CsvSafe(a) == CsvSafe(b) <==>
            a == b || (StartsFormula(a) && b == [QUOTE] + a) || (StartsFormula(b) && a == [QUOTE] + b)
  {
    assert StartsFormula(a) && StartsFormula(b) && [QUOTE] + a == [QUOTE] + b
           ==> ([QUOTE] + a)[1..] == a && ([QUOTE] + b)[1..] == b;
  }

  /** No other organisation's activity can change a single row of the file. */
  lemma ExportIsIsolated(ops: seq<Op>, org: Str)
    requires SingleHome(ops)
    ensures Report(Run(EMPTY, ops), org) == Report(Run(EMPTY, OwnOps(org, ops)), org)
  {
    var a, b := Run(EMPTY, ops), Run(EMPTY, OwnOps(org, ops));
    Noninterference(ops, org);
    forall d: Device
      ensures DeviceRows(a, org)(d) == DeviceRows(b, org)(d)
    {
      var limit := EXPORT_READINGS_PER_DEVICE;
      assert ReadingsOf(a, org, d.id, limit) == ReadingsOf(b, org, d.id, limit);
    }
    SameConcat(DeviceRows(a, org), DeviceRows(b, org), FleetOf(a, org));
  }
}
