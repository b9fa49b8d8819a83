/** The bounded per-device telemetry refines an unbounded history: theorems over every run of store
  operations from the empty store. */
module Retention {
  import opened Bytes
  import opened Records

  ghost predicate Enrolled(ops: seq<Op>, id: Str) {
    exists i :: 0 <= i < |ops| && ops[i].Enrols(id)
  }

  ghost predicate Accepted(before: seq<Op>, op: Op, id: Str) {
    op.Record? && op.deviceId == id && Enrolled(before, id)
  }

  /** Every reading the device ever delivered once it was known, oldest first: nothing is dropped, and
    the store is not consulted. */
  ghost function History(ops: seq<Op>, id: Str): seq<Reading> {
    if ops == [] then []
    else
      var before, op := ops[..|ops| - 1], ops[|ops| - 1];
      History(before, id) + if Accepted(before, op, id) then [Stamp(id, op.reading, op.now)] else []
  }

  /** The part of the history that follows the last enrolment of the id. */
  ghost function SinceEnrolment(ops: seq<Op>, id: Str): seq<Reading> {
    if ops == [] then []
    else
      var before, op := ops[..|ops| - 1], ops[|ops| - 1];
      if op.Enrols(id) then []
      else SinceEnrolment(before, id) + if Accepted(before, op, id) then [Stamp(id, op.reading, op.now)] else []
  }

  function Enrolments(ops: seq<Op>, id: Str): nat {
    if ops == [] then 0
    else Enrolments(ops[..|ops| - 1], id) + if ops[|ops| - 1].Enrols(id) then 1 else 0
  }

  /** The record given at the last enrolment of the id. */
  ghost function LatestEnrolment(ops: seq<Op>, id: Str): Device
    requires Enrolled(ops, id)
  {
    if ops[|ops| - 1].Enrols(id) then ops[|ops| - 1].device
    else
      EnrolledBefore(ops, id);
      LatestEnrolment(ops[..|ops| - 1], id)
  }

  lemma EnrolledBefore(ops: seq<Op>, id: Str)
    requires ops != []
    ensures Enrolled(ops, id) <==> ops[|ops| - 1].Enrols(id) || Enrolled(ops[..|ops| - 1], id)
  {
    var before := ops[..|ops| - 1];
    if i :| 0 <= i < |before| && before[i].Enrols(id) {
      assert ops[i].Enrols(id);
    }
    if i :| 0 <= i < |before| && ops[i].Enrols(id) {
      assert before[i].Enrols(id);
    }
  }

  /** What the store holds for a device is the last 1024 readings of its whole history. */
  lemma {:induction false} RetainedIsLast1024(ops: seq<Op>, id: Str)
    ensures Run(EMPTY, ops).ReadingsFor(id) == LastN(History(ops, id), MAX_READINGS_PER_DEVICE)
  {
    if ops != [] {
      var before, op := ops[..|ops| - 1], ops[|ops| - 1];
      RetainedIsLast1024(before, id);
      KnownDevices(EMPTY, before, id);
      if Accepted(before, op, id) {
        LastNAppend(History(before, id), Stamp(id, op.reading, op.now), MAX_READINGS_PER_DEVICE);
      } else {
        assert History(ops, id) == History(before, id);
      }
    }
  }

  /** A query gives the newest min(limit, 1024) readings of the whole history, newest first, to the
    organisation that owns the device, and nothing to any other. */
  lemma ReadingsAreNewest(ops: seq<Op>, org: Str, id: Str, limit: int)
    ensures ReadingsOf(Run(EMPTY, ops), org, id, limit) ==
            if Run(EMPTY, ops).OwnedBy(id, org) then Reverse(LastN(History(ops, id), ClampLimit(limit))) else []
  {
    RetainedIsLast1024(ops, id);
    LastNLastN(History(ops, id), ClampLimit(limit), MAX_READINGS_PER_DEVICE);
  }

  /** The same, reading by reading: the answer has min(limit, N) readings, a limit that is not between 1
    and 1024 means 1024, and the k-th is the k-th newest of the whole history. */
  lemma ReadingsExactly(ops: seq<Op>, org: Str, id: Str, limit: int)
    requires id in Run(EMPTY, ops).devices && Run(EMPTY, ops).devices[id].orgId == org
    ensures NewestOf(History(ops, id), if limit < 1 || 1024 < limit then 1024 else limit,
                     ReadingsOf(Run(EMPTY, ops), org, id, limit))
  {
    var h := History(ops, id);
    assert ReadingsOf(Run(EMPTY, ops), org, id, limit) == Reverse(LastN(h, ClampLimit(limit))) by {
      ReadingsAreNewest(ops, org, id, limit);
    }
    NewestReversed(h, ClampLimit(limit));
  }

  /** At most so many, the newest first. */
  predicate NewestOf(h: seq<Reading>, most: nat, rs: seq<Reading>) {
    && |rs| == (if |h| < most then |h| else most)
    && (forall k :: 0 <= k < |rs| ==> rs[k] == h[|h| - 1 - k])
  }

  lemma NewestReversed(h: seq<Reading>, most: nat)
    ensures NewestOf(h, most, Reverse(LastN(h, most)))
  {
  }

  predicate Delivers(op: Op, id: Str, r: Reading) {
    && op.Record? && op.deviceId == id
    && r == Reading(id, op.reading.metric, op.reading.value, op.reading.at, op.now)
  }

  /** `at` says which operation of the run delivered each reading: every one addressed to the id after it
    was enrolled, in order, as it came and with the server's time. */
  ghost predicate DeliveredBy(ops: seq<Op>, id: Str, h: seq<Reading>, at: seq<nat>) {
    && |at| == |h|
    && (forall k, l :: 0 <= k < l < |at| ==> at[k] < at[l])
    && (forall k :: 0 <= k < |at| ==> at[k] < |ops| && Delivers(ops[at[k]], id, h[k]))
    && (forall i :: 0 <= i < |ops| ==> (i in at <==> Accepted(ops[..i], ops[i], id)))
  }

  lemma {:induction false} HistoryExactly(ops: seq<Op>, id: Str) returns (at: seq<nat>)
    ensures DeliveredBy(ops, id, History(ops, id), at)
  {
    at := [];
    if ops != [] {
      var before, op := ops[..|ops| - 1], ops[|ops| - 1];
      at := HistoryExactly(before, id);
      if Accepted(before, op, id) {
        OneDelivered(before, op, id, History(before, id), at);
        at := at + [|before|];
      } else {
        NoneDelivered(before, op, id, History(before, id), at);
        assert History(before, id) + [] == History(before, id);
      }
      assert before + [op] == ops;
    }
  }

  lemma OneDelivered(ops: seq<Op>, op: Op, id: Str, h: seq<Reading>, at: seq<nat>)
    requires DeliveredBy(ops, id, h, at) && Accepted(ops, op, id)
    ensures DeliveredBy(ops + [op], id, h + [Stamp(id, op.reading, op.now)], at + [|ops|])
  {
    var all := ops + [op];
    forall i | 0 <= i < |all|
      ensures i in at + [|ops|] <==> Accepted(all[..i], all[i], id)
    {
      assert all[..i] == if i < |ops| then ops[..i] else ops;
    }
  }

  lemma NoneDelivered(ops: seq<Op>, op: Op, id: Str, h: seq<Reading>, at: seq<nat>)
    requires DeliveredBy(ops, id, h, at) && !Accepted(ops, op, id)
    ensures DeliveredBy(ops + [op], id, h, at)
  {
    var all := ops + [op];
    forall i | 0 <= i < |all|
      ensures i in at <==> Accepted(all[..i], all[i], id)
    {
      assert all[..i] == if i < |ops| then ops[..i] else ops;
    }
  }

  // ----- Time -----

  predicate ClockForward(ops: seq<Op>) {
    forall i, j :: 0 <= i < j < |ops| && ops[i].Record? && ops[j].Record? ==> ops[i].now <= ops[j].now
  }

  predicate NoLaterThan(ops: seq<Op>, t: Time) {
    forall i :: 0 <= i < |ops| && ops[i].Record? ==> ops[i].now <= t
  }

  predicate Chronological(rs: seq<Reading>) {
    forall i, j :: 0 <= i < j < |rs| ==> rs[i].receivedAt <= rs[j].receivedAt
  }

  lemma {:induction false} HistoryNoLaterThan(ops: seq<Op>, id: Str, t: Time)
    requires NoLaterThan(ops, t)
    ensures forall r :: r in History(ops, id) ==> r.receivedAt <= t
  {
    if ops != [] {
      HistoryNoLaterThan(ops[..|ops| - 1], id, t);
    }
  }

  lemma {:induction false} HistoryChronological(ops: seq<Op>, id: Str)
    requires ClockForward(ops)
    ensures Chronological(History(ops, id))
  {
    if ops != [] {
      var before, op := ops[..|ops| - 1], ops[|ops| - 1];
      HistoryChronological(before, id);
      if Accepted(before, op, id) {
        HistoryNoLaterThan(before, id, op.now);
        var h := History(before, id);
        assert forall i :: 0 <= i < |h| ==> h[i] in h;
      }
    }
  }

  /** With a clock that never steps back, no query ever shows an older reading before a newer one. */
  lemma ReadingsNewestFirst(ops: seq<Op>, org: Str, id: Str, limit: int)
    requires ClockForward(ops)
    ensures var rs := ReadingsOf(Run(EMPTY, ops), org, id, limit);
            forall i, j :: 0 <= i < j < |rs| ==> rs[j].receivedAt <= rs[i].receivedAt
  {
    ReadingsAreNewest(ops, org, id, limit);
    HistoryChronological(ops, id);
  }

  /** In every run a known device is the record of its last enrolment, with LastSeen moved to the
    time of the last reading since then, if there is one. */
  lemma {:induction false} DeviceAfterRun(ops: seq<Op>, id: Str)
    requires Enrolled(ops, id)
    ensures id in Run(EMPTY, ops).devices
    ensures var since := SinceEnrolment(ops, id);
            var enrolled := LatestEnrolment(ops, id);
            Run(EMPTY, ops).devices[id] ==
            if since == [] then enrolled else enrolled.(lastSeen := since[|since| - 1].receivedAt)
  {
    KnownDevices(EMPTY, ops, id);
    var before, op := ops[..|ops| - 1], ops[|ops| - 1];
    EnrolledBefore(ops, id);
    if !op.Enrols(id) {
      DeviceAfterRun(before, id);
      if !Accepted(before, op, id) {
        assert SinceEnrolment(ops, id) == SinceEnrolment(before, id);
      }
    }
  }

  lemma {:induction false} NoEnrolmentNoHistory(ops: seq<Op>, id: Str)
    requires Enrolments(ops, id) == 0
    ensures !Enrolled(ops, id) && History(ops, id) == []
  {
    if ops != [] {
      NoEnrolmentNoHistory(ops[..|ops| - 1], id);
      EnrolledBefore(ops, id);
    }
  }

  lemma {:induction false} EnrolledOnce(ops: seq<Op>, id: Str)
    requires Enrolments(ops, id) == 1
    ensures Enrolled(ops, id) && SinceEnrolment(ops, id) == History(ops, id)
  {
    EnrolledBefore(ops, id);
    var before := ops[..|ops| - 1];
    if ops[|ops| - 1].Enrols(id) {
      NoEnrolmentNoHistory(before, id);
    } else {
      EnrolledOnce(before, id);
    }
  }

  /** The readings since the last enrolment end the history. */
  lemma {:induction false} SinceEndsHistory(ops: seq<Op>, id: Str)
    ensures |SinceEnrolment(ops, id)| <= |History(ops, id)|
    ensures SinceEnrolment(ops, id) == LastN(History(ops, id), |SinceEnrolment(ops, id)|)
  {
    if ops != [] {
      var before, op := ops[..|ops| - 1], ops[|ops| - 1];
      SinceEndsHistory(before, id);
      if op.Enrols(id) {
        assert SinceEnrolment(ops, id) == [];
      } else if Accepted(before, op, id) {
        EndGrows(SinceEnrolment(before, id), History(before, id), Stamp(id, op.reading, op.now));
      } else {
        assert SinceEnrolment(ops, id) == SinceEnrolment(before, id) && History(ops, id) == History(before, id);
      }
    }
  }

  lemma EndGrows<T>(end: seq<T>, s: seq<T>, x: T)
    requires |end| <= |s| && end == LastN(s, |end|)
    ensures end + [x] == LastN(s + [x], |end + [x]|)
  {
  }

  /** The exact condition for LastSeen to be the time of the newest reading: a reading came in since the
    last enrolment, or the record given then already bore that time. */
  lemma LastSeenExact(ops: seq<Op>, id: Str)
    requires Enrolled(ops, id) && History(ops, id) != []
    ensures id in Run(EMPTY, ops).devices
    ensures var h := History(ops, id);
            var newest := h[|h| - 1].receivedAt;
            Run(EMPTY, ops).devices[id].lastSeen == newest <==>
            SinceEnrolment(ops, id) != [] || LatestEnrolment(ops, id).lastSeen == newest
  {
    DeviceAfterRun(ops, id);
    SinceEndsHistory(ops, id);
  }

  /** The newest reading opens every answer, and under a forward clock no reading is newer. */
  lemma NewestOpens(ops: seq<Op>, org: Str, id: Str, limit: int)
    requires ClockForward(ops) && Run(EMPTY, ops).OwnedBy(id, org) && History(ops, id) != []
    ensures var h := History(ops, id);
            var rs := ReadingsOf(Run(EMPTY, ops), org, id, limit);
            && rs != [] && rs[0] == h[|h| - 1]
            && (forall r :: r in h ==> r.receivedAt <= rs[0].receivedAt)
  {
    var h := History(ops, id);
    ReadingsExactly(ops, org, id, limit);
    HistoryChronological(ops, id);
    LastIsLatest(h);
  }

  lemma LastIsLatest(h: seq<Reading>)
    requires h != [] && Chronological(h)
    ensures forall r :: r in h ==> r.receivedAt <= h[|h| - 1].receivedAt
  {
  }

  /** So a device that sent something since it was last enrolled was last seen when the newest of all its
    readings came in. */
  lemma LastSeenIsNewest(ops: seq<Op>, id: Str, limit: int)
    requires Enrolled(ops, id) && SinceEnrolment(ops, id) != [] && ClockForward(ops)
    ensures id in Run(EMPTY, ops).devices
    ensures var d := Run(EMPTY, ops).devices[id];
            var rs := ReadingsOf(Run(EMPTY, ops), d.orgId, id, limit);
            && rs != [] && d.lastSeen == rs[0].receivedAt
            && (forall r :: r in History(ops, id) ==> r.receivedAt <= d.lastSeen)
  {
    SinceEndsHistory(ops, id);
    LastSeenExact(ops, id);
    NewestOpens(ops, Run(EMPTY, ops).devices[id].orgId, id, limit);
  }

  /** A device enrolled once meets the condition as soon as it has sent anything; until then LastSeen is
    the enrolment's. */
  lemma EnrolledOnceLastSeen(ops: seq<Op>, id: Str)
    requires Enrolments(ops, id) == 1
    ensures Enrolled(ops, id) && id in Run(EMPTY, ops).devices
    ensures var h := History(ops, id);
            Run(EMPTY, ops).devices[id].lastSeen ==
            if h == [] then LatestEnrolment(ops, id).lastSeen else h[|h| - 1].receivedAt
  {
    EnrolledOnce(ops, id);
    DeviceAfterRun(ops, id);
  }

  /** Enrolling an id again resets LastSeen while its readings stay. */
  lemma ReEnrolmentResetsLastSeen(d: Device, r: Reading, now: Time)
    requires Enrollable(d) && d.lastSeen == ZERO_TIME < now
    ensures var st := Run(EMPTY, [Op.Enrol(d), Op.Record(d.id, r, now), Op.Enrol(d)]);
            st.ReadingsFor(d.id) == [Stamp(d.id, r, now)] && st.devices[d.id].lastSeen == ZERO_TIME
  {
    RunThree(EMPTY, Op.Enrol(d), Op.Record(d.id, r, now), Op.Enrol(d));
    assert AfterEnrol(EMPTY, d).ReadingsFor(d.id) == [];
  }
}
