/** What holds after every interleaving of rollout calls, and what holds only when the calls of one
  organisation do not overlap. */
module RolloutSafety {
  import opened Bytes
  import opened Records
  import opened Release
  import opened Version
  import opened Rollout

  lemma StartInv(cfg: Config)
    ensures Inv(cfg, START)
  {
  }

  predicate IsAcceptance(e: AuditEntry, org: Str) {
    e.orgId == org && HasPrefix(e.action, ActionAccepted())
  }

  // ----- Every interleaving -----

  /** Each accepted entry was written by one call, in its caller's name. That call's manifest was well
    formed and the pinned key's signature over its context, version and digest verified; it read the
    history and found its version newer than the newest accepted one there; and the CDN had taken its
    release, in this order and before the entry was written. */
  lemma EveryAcceptance(cfg: Config, moves: seq<Move>, i: nat)
    requires i < |Steps(cfg, START, moves).audit|
    requires HasPrefix(Steps(cfg, START, moves).audit[i].action, ActionAccepted())
    ensures var w := Steps(cfg, START, moves);
            && i < |w.authors| && w.authors[i] < |w.calls|
            && var call := w.calls[w.authors[i]];
               && call.phase.Accepted? && call.phase.entry == i
               && call.request.Decoded?
               && var m := call.request.manifest;
                  && Parse(m.version).Some? && IsDigest(m.digest)
                  && cfg.crypto.decode(m.signature).Some? && |cfg.crypto.decode(m.signature).value| == 64
                  && |cfg.key| == 32
                  && cfg.crypto.verifies(
                       cfg.key,
                       Ascii("sensorhub-firmware-release/v1") + [10] + m.version + [10] + m.digest + [10],
                       cfg.crypto.decode(m.signature).value)
                  && w.audit[i].actor == call.caller.subject
                  && w.audit[i].orgId == call.caller.orgId
                  && w.audit[i].target == m.version
                  && w.audit[i].outcome == Ascii("allowed") && w.audit[i].reason == []
                  && call.phase.readAt <= call.phase.publishedAt <= i
                  && Decide(Current(w.audit[..call.phase.readAt], w.audit[i].orgId), m.version) == Proceed
                  && call.phase.release < |w.published|
                  && w.published[call.phase.release] == Publication(w.authors[i], w.audit[i].orgId, m)
  {
    StartInv(cfg);
    InvHolds(cfg, START, moves);
    var w := Steps(cfg, START, moves);
    assert EntryOk(w, i);
    SelectedAction(w, i);
    var call := w.calls[w.authors[i]];
    assert CallOk(cfg, w, w.authors[i], call);
    VerifyExactly(cfg.crypto, cfg.key, call.request.manifest);
  }

  /** Nothing ever reaches the CDN, recorded or not, but a manifest whose signature verified, in the name of
    the organisation whose member sent it. */
  lemma {:induction false} EveryPublication(cfg: Config, moves: seq<Move>, j: nat)
    requires j < |Steps(cfg, START, moves).published|
    ensures var w := Steps(cfg, START, moves);
            var p := w.published[j];
            && p.call < |w.calls|
            && w.calls[p.call].request == Decoded(p.manifest) && w.calls[p.call].caller.orgId == p.org
            && Verify(cfg.crypto, cfg.key, p.manifest) == Ok(())
  {
    var before, move := moves[..|moves| - 1], moves[|moves| - 1];
    var w := Steps(cfg, START, before);
    if j < |w.published| {
      EveryPublication(cfg, before, j);
      SameCallers(cfg, w, move, w.published[j].call);
    } else {
      StartInv(cfg);
      InvHolds(cfg, START, before);
      assert CallOk(cfg, w, move.call, w.calls[move.call]);
    }
  }

  /** No step changes what a call asked for, or an earlier publication. */
  lemma SameCallers(cfg: Config, w: World, move: Move, c: nat)
    requires c < |w.calls|
    ensures var w' := Next(cfg, w, move);
            && c < |w'.calls| && w'.calls[c].caller == w.calls[c].caller && w'.calls[c].request == w.calls[c].request
            && w.published <= w'.published
  {
    if move.Advance? && move.call < |w.calls| {
      SameCaller(cfg, w, move.call, move.published, move.now, c);
    }
  }

  lemma SameCaller(cfg: Config, w: World, d: nat, published: bool, now: Time, c: nat)
    requires c < |w.calls| && d < |w.calls|
    ensures var w' := Advanced(cfg, w, d, published, now);
            && |w'.calls| == |w.calls|
            && w'.calls[c].caller == w.calls[c].caller && w'.calls[c].request == w.calls[c].request
            && w.published <= w'.published
  {
  }

  /** So with a key under which nothing verifies, no interleaving accepts or publishes anything. */
  lemma NothingUnsigned(cfg: Config, moves: seq<Move>)
    requires forall bytes, sig :: !cfg.crypto.verifies(cfg.key, bytes, sig)
    ensures var w := Steps(cfg, START, moves);
            w.published == [] && forall i :: 0 <= i < |w.audit| ==> !HasPrefix(w.audit[i].action, ActionAccepted())
  {
    var w := Steps(cfg, START, moves);
    if w.published != [] {
      EveryPublication(cfg, moves, 0);
      VerifyExactly(cfg.crypto, cfg.key, w.published[0].manifest);
    }
    forall i | 0 <= i < |w.audit|
      ensures !HasPrefix(w.audit[i].action, ActionAccepted())
    {
      if HasPrefix(w.audit[i].action, ActionAccepted()) {
        EveryAcceptance(cfg, moves, i);
      }
    }
  }

  /** Each call writes at most one entry: a call that was answered wrote exactly one, an accepted entry
    exactly when the answer was 202, and otherwise a denied one with a reason that goes with the status; a
    call still under way wrote none; and the two internal errors about the history never happen. */
  lemma OneEntryPerAnswer(cfg: Config, moves: seq<Move>, c: nat)
    requires c < |Steps(cfg, START, moves).calls|
    ensures var w := Steps(cfg, START, moves);
            var phase := w.calls[c].phase;
            var over := phase.Accepted? || phase.Refused?;
            && !phase.Failed?
            && |w.audit| == |w.authors|
            && (over ==> phase.entry < |w.audit|
                         && (HasPrefix(w.audit[phase.entry].action, ActionAccepted()) <==> phase.Accepted?)
                         && w.audit[phase.entry].actor == w.calls[c].caller.subject
                         && w.audit[phase.entry].orgId == w.calls[c].caller.orgId
                         && (phase.Refused? ==>
                               && phase.status != 202
                               && w.audit[phase.entry].outcome == Ascii("denied")
                               && Refusal(phase.status, w.audit[phase.entry].reason)))
            && (forall i :: 0 <= i < |w.audit| ==> (w.authors[i] == c <==> over && i == phase.entry))
  {
    StartInv(cfg);
    InvHolds(cfg, START, moves);
    var w := Steps(cfg, START, moves);
    assert CallOk(cfg, w, c, w.calls[c]);
    var phase := w.calls[c].phase;
    if phase.Accepted? || phase.Refused? {
      assert EntryOk(w, phase.entry);
      SelectedAction(w, phase.entry);
    }
    forall i | 0 <= i < |w.audit| && w.authors[i] == c
      ensures (phase.Accepted? || phase.Refused?) && i == phase.entry
    {
      assert EntryOk(w, i);
    }
  }

  // ----- Nothing is published without a record, or recorded without a publication -----

  /** How often the CDN took this version for this organisation. */
  function Shipped(ps: seq<Publication>, org: Str, version: Str): nat {
    if ps == [] then 0
    else
      var p := ps[|ps| - 1];
      Shipped(ps[..|ps| - 1], org, version) + if p.org == org && p.manifest.version == version then 1 else 0
  }

  /** How often the log records this version as accepted for this organisation. */
  function Acceptances(audit: seq<AuditEntry>, org: Str, version: Str): nat {
    if audit == [] then 0
    else
      var e := audit[|audit| - 1];
      Acceptances(audit[..|audit| - 1], org, version)
      + if e.orgId == org && HasPrefix(e.action, ActionAccepted()) && e.target == version then 1 else 0
  }

  /** A call between the CDN's yes and its audit entry. */
  predicate Pending(call: Call, org: Str, version: Str) {
    call.phase.Live? && call.caller.orgId == org && call.request.Target() == version
  }

  function InFlight(calls: seq<Call>, org: Str, version: Str): nat {
    if calls == [] then 0
    else InFlight(calls[..|calls| - 1], org, version) + if Pending(calls[|calls| - 1], org, version) then 1 else 0
  }

  lemma {:induction false} InFlightUpdate(calls: seq<Call>, c: nat, call: Call, org: Str, version: Str)
    requires c < |calls|
    ensures InFlight(calls[c := call], org, version) + (if Pending(calls[c], org, version) then 1 else 0) ==
            InFlight(calls, org, version) + (if Pending(call, org, version) then 1 else 0)
  {
    var n := |calls| - 1;
    var updated := calls[c := call];
    if c < n {
      InFlightUpdate(calls[..n], c, call, org, version);
      assert updated[..n] == calls[..n][c := call];
    } else {
      assert updated[..n] == calls[..n];
    }
  }

  predicate Balanced(w: World, org: Str, version: Str) {
    Shipped(w.published, org, version) == Acceptances(w.audit, org, version) + InFlight(w.calls, org, version)
  }

  lemma BalancedPhase(w: World, c: nat, phase: Phase, org: Str, version: Str)
    requires Balanced(w, org, version) && c < |w.calls| && !w.calls[c].phase.Live? && !phase.Live?
    ensures Balanced(WithPhase(w, c, phase), org, version)
  {
    InFlightUpdate(w.calls, c, w.calls[c].(phase := phase), org, version);
  }

  lemma BalancedEntry(w: World, c: nat, phase: Phase, e: AuditEntry, org: Str, version: Str)
    requires Balanced(w, org, version) && c < |w.calls| && !phase.Live?
    requires Pending(w.calls[c], org, version) <==> IsAcceptance(e, org) && e.target == version
    ensures Balanced(WithEntry(w, c, phase, e), org, version)
  {
    InFlightUpdate(w.calls, c, w.calls[c].(phase := phase), org, version);
    assert (w.audit + [e])[..|w.audit|] == w.audit;
  }

  lemma BalancedPublish(w: World, c: nat, phase: Phase, p: Publication, org: Str, version: Str)
    requires Balanced(w, org, version) && c < |w.calls| && !w.calls[c].phase.Live? && phase.Live?
    requires p.org == w.calls[c].caller.orgId && p.manifest.version == w.calls[c].request.Target()
    ensures Balanced(WithPhase(w, c, phase).(published := w.published + [p]), org, version)
  {
    InFlightUpdate(w.calls, c, w.calls[c].(phase := phase), org, version);
    assert (w.published + [p])[..|w.published|] == w.published;
  }

  lemma BalancedAdvance(cfg: Config, w: World, c: nat, published: bool, now: Time, o: Str, v: Str)
    requires Balanced(w, o, v) && c < |w.calls|
    ensures Balanced(Advanced(cfg, w, c, published, now), o, v)
  {
    RejectedIsNotAccepted();
    var call := w.calls[c];
    var org, version := call.caller.orgId, call.request.Target();
    match call.phase
    case Arrived => BalancedPhase(w, c, AfterVerify(cfg, call.request), o, v);
    case Verified => BalancedPhase(w, c, AfterRead(w.audit, org, version), o, v);
    case Cleared(readAt) =>
      if published && call.request.Decoded? {
        BalancedPublish(w, c, Live(readAt, |w.audit|, |w.published|), Publication(c, org, call.request.manifest), o, v);
      } else {
        BalancedPhase(w, c, Refusing(BAD_GATEWAY, Ascii("cdn publish failed")), o, v);
      }
    case Live(readAt, publishedAt, release) =>
      BalancedEntry(w, c, Accepted(readAt, publishedAt, release, |w.audit|), AcceptedEntry(call.caller, version, now),
                    o, v);
    case Refusing(status, reason) =>
      BalancedEntry(w, c, Refused(status, |w.audit|), RejectedEntry(call.caller, version, reason, now), o, v);
    case _ =>
  }

  lemma BalancedArrive(w: World, call: Call, o: Str, v: Str)
    requires Balanced(w, o, v) && !call.phase.Live?
    ensures Balanced(w.(calls := w.calls + [call]), o, v)
  {
    assert (w.calls + [call])[..|w.calls|] == w.calls;
  }

  lemma BalancedNext(cfg: Config, w: World, move: Move, o: Str, v: Str)
    requires Balanced(w, o, v)
    ensures Balanced(Next(cfg, w, move), o, v)
  {
    match move
    case Arrive(id, request) => BalancedArrive(w, Call(id, request, Arrived), o, v);
    case Advance(c, published, now) =>
      if c < |w.calls| {
        BalancedAdvance(cfg, w, c, published, now, o, v);
      }
  }

  /** After every interleaving the releases the CDN took are the accepted entries and those whose call
    has still to record them, each counted as often as it occurs. */
  lemma {:induction false} Conservation(cfg: Config, moves: seq<Move>, org: Str, version: Str)
    ensures var w := Steps(cfg, START, moves);
            Shipped(w.published, org, version) == Acceptances(w.audit, org, version) + InFlight(w.calls, org, version)
  {
    assert moves == [] ==> Balanced(START, org, version);
    if moves != [] {
      Conservation(cfg, moves[..|moves| - 1], org, version);
      BalancedNext(cfg, Steps(cfg, START, moves[..|moves| - 1]), moves[|moves| - 1], org, version);
    }
  }

  lemma {:induction false} NoneInFlight(calls: seq<Call>, org: Str, version: Str)
    requires forall c :: 0 <= c < |calls| ==> !calls[c].phase.Live?
    ensures InFlight(calls, org, version) == 0
  {
    if calls != [] {
      NoneInFlight(calls[..|calls| - 1], org, version);
    }
  }

  /** Once no call is between publishing and recording, the two agree. */
  lemma QuiescentAgreement(cfg: Config, moves: seq<Move>, org: Str, version: Str)
    requires forall c :: 0 <= c < |Steps(cfg, START, moves).calls| ==> !Steps(cfg, START, moves).calls[c].phase.Live?
    ensures var w := Steps(cfg, START, moves);
            Shipped(w.published, org, version) == Acceptances(w.audit, org, version)
  {
    Conservation(cfg, moves, org, version);
    NoneInFlight(Steps(cfg, START, moves).calls, org, version);
  }

  // ----- Downgrade protection -----

  function Targets(es: seq<AuditEntry>): (vs: seq<Str>)
    ensures |vs| == |es|
    ensures forall i :: 0 <= i < |es| ==> vs[i] == es[i].target
  {
    seq(|es|, i requires 0 <= i < |es| => es[i].target)
  }

  /** The versions the organisation accepted, oldest first. */
  function Rollouts(audit: seq<AuditEntry>, org: Str): seq<Str> {
    Targets(AcceptedOf(audit, org))
  }

  lemma RolloutsStep(audit: seq<AuditEntry>, org: Str)
    requires audit != []
    ensures var e := audit[|audit| - 1];
            var before := Rollouts(audit[..|audit| - 1], org);
            && Rollouts(audit, org) == (if IsAcceptance(e, org) then before + [e.target] else before)
            && Current(audit[..|audit| - 1], org) == (if before == [] then [] else before[|before| - 1])
  {
    var es := AcceptedOf(audit[..|audit| - 1], org);
    assert Targets(es + [audit[|audit| - 1]]) == Targets(es) + [audit[|audit| - 1].target];
    assert es + [] == es;
  }

  lemma IncreasingStep(vs: seq<Str>, v: Str)
    requires Parse(v).Some? && (forall i :: 0 <= i < |vs| ==> Parse(vs[i]).Some?)
    ensures Increasing(vs + [v]) <==>
            Increasing(vs) && Decide(if vs == [] then [] else vs[|vs| - 1], v) == Proceed
  {
    if vs == [] {
      assert vs + [v] == [v];
    } else {
      LaterProceeds(vs[|vs| - 1], v);
      IncreasingAppend(vs, v);
    }
  }

  lemma IncreasingAppend(vs: seq<Str>, v: Str)
    requires vs != [] && Parse(v).Some?
    ensures Increasing(vs + [v]) <==> Increasing(vs) && Compare(v, vs[|vs| - 1]) == Some(1)
  {
    if Increasing(vs + [v]) {
      FrontIncreasing(vs, v);
    } else if Increasing(vs) && Compare(v, vs[|vs| - 1]) == Some(1) {
      IncreasingLonger(vs, v);
    }
  }

  lemma FrontIncreasing(vs: seq<Str>, v: Str)
    requires vs != [] && Increasing(vs + [v])
    ensures Increasing(vs) && Compare(v, vs[|vs| - 1]) == Some(1)
  {
    var ws := vs + [v];
    assert ws[|vs|] == v && ws[|vs| - 1] == vs[|vs| - 1];
    assert BeatsPrevious(ws, |vs|);
    forall i | 0 <= i < |vs|
      ensures Parse(vs[i]).Some? && (0 < i ==> BeatsPrevious(vs, i))
    {
      assert ws[i] == vs[i] && (0 < i ==> BeatsPrevious(ws, i) && ws[i - 1] == vs[i - 1]);
    }
  }

  lemma IncreasingLonger(vs: seq<Str>, v: Str)
    requires vs != [] && Increasing(vs) && Parse(v).Some? && Compare(v, vs[|vs| - 1]) == Some(1)
    ensures Increasing(vs + [v])
  {
    var ws := vs + [v];
    forall i | 0 <= i < |ws|
      ensures Parse(ws[i]).Some? && (0 < i ==> BeatsPrevious(ws, i))
    {
      assert i < |vs| ==> ws[i] == vs[i] && (0 < i ==> BeatsPrevious(vs, i));
      assert 0 < i ==> ws[i - 1] == vs[i - 1];
    }
  }

  /** Between readable versions the service proceeds exactly when the new one beats the current one. */
  lemma LaterProceeds(current: Str, version: Str)
    requires Parse(current).Some? && Parse(version).Some?
    ensures Decide(current, version) == Proceed <==> Compare(version, current) == Some(1)
  {
  }

  /** Every accepted target in the log is a readable version. */
  ghost predicate Readable(audit: seq<AuditEntry>) {
    forall i :: 0 <= i < |audit| && HasPrefix(audit[i].action, ActionAccepted()) ==> Parse(audit[i].target).Some?
  }

  lemma {:induction false} RolloutsReadable(audit: seq<AuditEntry>, org: Str)
    requires Readable(audit)
    ensures forall i :: 0 <= i < |Rollouts(audit, org)| ==> Parse(Rollouts(audit, org)[i]).Some?
  {
    forall i | 0 <= i < |Rollouts(audit, org)|
      ensures Parse(Rollouts(audit, org)[i]).Some?
    {
      SelectMembers(audit, org, ActionAccepted(), AcceptedOf(audit, org)[i]);
    }
  }

  lemma ReadableHistory(cfg: Config, w: World)
    requires Inv(cfg, w)
    ensures Readable(w.audit)
  {
    forall i | 0 <= i < |w.audit| && HasPrefix(w.audit[i].action, ActionAccepted())
      ensures Parse(w.audit[i].target).Some?
    {
      AcceptedReadable(cfg, w, i);
    }
  }

  /** No acceptance of the organisation was recorded between the two lengths of the log. */
  predicate NoneBetween(audit: seq<AuditEntry>, org: Str, from: nat, to: nat)
    requires to <= |audit|
  {
    forall j :: from <= j < to ==> !IsAcceptance(audit[j], org)
  }

  /** Between reading the history and recording, no accepted call of the organisation saw another
    acceptance of the organisation recorded. */
  ghost predicate NoOverlap(w: World, org: Str) {
    forall c :: 0 <= c < |w.calls| && w.calls[c].phase.Accepted? && w.calls[c].caller.orgId == org
                && w.calls[c].phase.entry <= |w.audit|
                ==> NoneBetween(w.audit, org, w.calls[c].phase.readAt, w.calls[c].phase.entry)
  }

  lemma {:induction false} SameCurrent(audit: seq<AuditEntry>, org: Str, from: nat, to: nat)
    requires from <= to <= |audit| && NoneBetween(audit, org, from, to)
    ensures Current(audit[..to], org) == Current(audit[..from], org)
  {
    if from < to {
      SameCurrent(audit, org, from, to - 1);
      assert audit[..to][..to - 1] == audit[..to - 1];
      var es := AcceptedOf(audit[..to - 1], org);
      assert es + [] == es;
    }
  }

  // ----- Exactly when an organisation's rollouts move forward -----

  lemma {:induction false} AcceptanceIsRollout(audit: seq<AuditEntry>, org: Str, j: nat) returns (k: nat)
    requires j < |audit| && IsAcceptance(audit[j], org)
    ensures k < |Rollouts(audit, org)| && Rollouts(audit, org)[k] == audit[j].target
  {
    RolloutsStep(audit, org);
    if j < |audit| - 1 {
      k := AcceptanceIsRollout(audit[..|audit| - 1], org, j);
    } else {
      k := |Rollouts(audit, org)| - 1;
    }
  }

  /** In a log whose rollouts move forward nothing accepted beats the current version. */
  lemma CurrentIsHighest(audit: seq<AuditEntry>, org: Str, j: nat)
    requires Increasing(Rollouts(audit, org)) && j < |audit| && IsAcceptance(audit[j], org)
    ensures NoHigher(audit[j].target, Current(audit, org))
  {
    var vs := Rollouts(audit, org);
    var k := AcceptanceIsRollout(audit, org, j);
    assert Current(audit, org) == vs[|vs| - 1] by {
      CurrentIsLast(audit, org);
    }
    LastIsHighest(vs, k);
  }

  lemma LastIsHighest(vs: seq<Str>, k: nat)
    requires Increasing(vs) && k < |vs|
    ensures NoHigher(vs[k], vs[|vs| - 1])
  {
    if k < |vs| - 1 {
      IncreasingBeats(vs, k, |vs| - 1);
    }
  }

  predicate NoHigher(a: Str, b: Str) {
    a == b || Compare(b, a) == Some(1)
  }

  lemma BeatsLower(version: Str, a: Str, b: Str)
    requires NoHigher(a, b) && Compare(version, b) == Some(1)
    ensures Compare(version, a) == Some(1)
  {
  }

  /** The call's version is newer than everything the organisation was recorded to accept between the
    call's reading of the history and its own entry. */
  predicate BeatsWindow(audit: seq<AuditEntry>, org: Str, version: Str, from: nat, to: nat)
    requires to <= |audit|
  {
    forall j :: from <= j < to && IsAcceptance(audit[j], org) ==> Compare(version, audit[j].target) == Some(1)
  }

  /** Given that the version passed the comparison at `from`, it would pass at `to` if and only if it beats
    what was accepted in between. */
  lemma WindowDecides(audit: seq<AuditEntry>, org: Str, version: Str, from: nat, to: nat)
    requires from <= to <= |audit| && Parse(version).Some?
    requires Increasing(Rollouts(audit[..to], org))
    requires Decide(Current(audit[..from], org), version) == Proceed
    ensures Decide(Current(audit[..to], org), version) == Proceed <==> BeatsWindow(audit, org, version, from, to)
  {
    if NoneBetween(audit, org, from, to) {
      SameCurrent(audit, org, from, to);
    } else {
      var j :| from <= j < to && IsAcceptance(audit[j], org);
      WindowNewest(audit, org, version, from, to, j);
    }
  }

  /** The same when something was: the newest acceptance lies in the window, and beating it is beating
    all. */
  lemma WindowNewest(audit: seq<AuditEntry>, org: Str, version: Str, from: nat, to: nat, j: nat)
    requires from <= j < to <= |audit| && IsAcceptance(audit[j], org)
    requires Parse(version).Some? && Increasing(Rollouts(audit[..to], org))
    ensures Decide(Current(audit[..to], org), version) == Proceed <==> BeatsWindow(audit, org, version, from, to)
  {
    var k := AcceptanceIsRollout(audit[..to], org, j);
    var i := NewestAccepted(audit[..to], org);
    var current := audit[i].target;
    assert IsAcceptance(audit[i], org) && from <= i by {
      assert audit[..to][i] == audit[i] && audit[..to][j] == audit[j];
    }
    assert Parse(current).Some? by {
      var n := AcceptanceIsRollout(audit[..to], org, i);
    }
    LaterProceeds(current, version);
    if Compare(version, current) == Some(1) {
      forall x | from <= x < to && IsAcceptance(audit[x], org)
        ensures Compare(version, audit[x].target) == Some(1)
      {
        CurrentIsHighest(audit[..to], org, x);
        BeatsLower(version, audit[x].target, current);
      }
    }
  }

  /** The call behind an accepted entry, by that entry: its window is the log from its read to it. */
  predicate EntryBeatsWindow(w: World, org: Str, i: nat) {
    && i < |w.audit| == |w.authors| && w.authors[i] < |w.calls|
    && var phase := w.calls[w.authors[i]].phase;
       IsAcceptance(w.audit[i], org) && phase.Accepted? ==>
         BeatsWindow(w.audit, org, w.audit[i].target, phase.readAt, i)
  }

  ghost predicate EntriesBeatWindows(w: World, org: Str, n: nat) {
    forall i :: 0 <= i < n ==> EntryBeatsWindow(w, org, i)
  }

  lemma EntryDecides(cfg: Config, w: World, org: Str, i: nat)
    requires Inv(cfg, w) && i < |w.audit| && EntryOk(w, i)
    requires IsAcceptance(w.audit[i], org) && Increasing(Rollouts(w.audit[..i], org))
    ensures Decide(Current(w.audit[..i], org), w.audit[i].target) == Proceed <==> EntryBeatsWindow(w, org, i)
  {
    var c := w.authors[i];
    SelectedAction(w, i);
    assert CallOk(cfg, w, c, w.calls[c]);
    ReadableHistory(cfg, w);
    WindowDecides(w.audit, org, w.audit[i].target, w.calls[c].phase.readAt, i);
  }

  lemma OneMoreRollout(audit: seq<AuditEntry>, org: Str, i: nat)
    requires i < |audit| && Readable(audit)
    ensures Increasing(Rollouts(audit[..i + 1], org)) <==>
            Increasing(Rollouts(audit[..i], org))
            && (IsAcceptance(audit[i], org) ==> Decide(Current(audit[..i], org), audit[i].target) == Proceed)
  {
    var init, e := audit[..i], audit[i];
    assert audit[..i + 1][..i] == init;
    RolloutsStep(audit[..i + 1], org);
    if IsAcceptance(e, org) {
      RolloutsReadable(init, org);
      IncreasingStep(Rollouts(init, org), e.target);
    }
  }

  lemma NotAWindow(w: World, org: Str, i: nat)
    requires i < |w.audit| == |w.authors| && EntryOk(w, i) && !IsAcceptance(w.audit[i], org)
    ensures EntryBeatsWindow(w, org, i)
  {
  }

  lemma ForwardStep(cfg: Config, w: World, org: Str, i: nat)
    requires Inv(cfg, w) && i < |w.audit| && EntryOk(w, i)
    ensures Increasing(Rollouts(w.audit[..i + 1], org)) <==>
            Increasing(Rollouts(w.audit[..i], org)) && EntryBeatsWindow(w, org, i)
  {
    ReadableHistory(cfg, w);
    OneMoreRollout(w.audit, org, i);
    if !IsAcceptance(w.audit[i], org) {
      NotAWindow(w, org, i);
    } else if Increasing(Rollouts(w.audit[..i], org)) {
      EntryDecides(cfg, w, org, i);
    }
  }

  lemma {:induction false} ForwardSoFar(cfg: Config, w: World, org: Str, n: nat)
    requires Inv(cfg, w) && n <= |w.audit|
    ensures Increasing(Rollouts(w.audit[..n], org)) <==> EntriesBeatWindows(w, org, n)
  {
    if 0 < n {
      ForwardSoFar(cfg, w, org, n - 1);
      assert EntryOk(w, n - 1);
      ForwardStep(cfg, w, org, n - 1);
      OneMoreEntry(w, org, n - 1);
    }
  }

  lemma OneMoreEntry(w: World, org: Str, n: nat)
    ensures EntriesBeatWindows(w, org, n + 1) <==> EntriesBeatWindows(w, org, n) && EntryBeatsWindow(w, org, n)
  {
  }

  /** If the call was accepted, its version beats what its organisation was recorded to accept in its
    window, from reading the history to its own entry. */
  predicate CallBeatsWindow(w: World, org: Str, c: nat)
    requires c < |w.calls|
  {
    var call := w.calls[c];
    call.phase.Accepted? && call.caller.orgId == org && call.phase.entry <= |w.audit| ==>
      BeatsWindow(w.audit, org, call.request.Target(), call.phase.readAt, call.phase.entry)
  }

  ghost predicate WindowsBeaten(w: World, org: Str) {
    forall c :: 0 <= c < |w.calls| ==> CallBeatsWindow(w, org, c)
  }

  lemma EntryOfCall(cfg: Config, w: World, org: Str, c: nat)
    requires Inv(cfg, w) && c < |w.calls| && w.calls[c].phase.Accepted? && w.calls[c].caller.orgId == org
    ensures var i := w.calls[c].phase.entry;
            i < |w.audit| && w.authors[i] == c && IsAcceptance(w.audit[i], org)
            && (CallBeatsWindow(w, org, c) <==> EntryBeatsWindow(w, org, i))
  {
    assert CallOk(cfg, w, c, w.calls[c]);
    assert EntryOk(w, w.calls[c].phase.entry);
    SelectedAction(w, w.calls[c].phase.entry);
  }

  /** The exact condition, in every reachable world: an organisation's rollouts only ever move forward if
    and only if each of its accepted calls asked for a version newer than whatever the organisation was
    recorded to accept between that call's reading of the history and its own entry. Against everything
    recorded before, the comparison at the read is enough. */
  lemma ForwardIffWindowsBeaten(cfg: Config, w: World, org: Str)
    requires Inv(cfg, w)
    ensures Increasing(Rollouts(w.audit, org)) <==> WindowsBeaten(w, org)
  {
    ForwardSoFar(cfg, w, org, |w.audit|);
    assert w.audit[..|w.audit|] == w.audit;
    if Increasing(Rollouts(w.audit, org)) {
      forall c | 0 <= c < |w.calls|
        ensures CallBeatsWindow(w, org, c)
      {
        if w.calls[c].phase.Accepted? && w.calls[c].caller.orgId == org {
          EntryOfCall(cfg, w, org, c);
        }
      }
    }
    if WindowsBeaten(w, org) {
      forall i | 0 <= i < |w.audit|
        ensures EntryBeatsWindow(w, org, i)
      {
        assert EntryOk(w, i);
        if IsAcceptance(w.audit[i], org) {
          SelectedAction(w, i);
          EntryOfCall(cfg, w, org, w.authors[i]);
        }
      }
    }
  }

  /** In particular when nothing of the organisation was accepted in between. */
  lemma NoOverlapForward(cfg: Config, w: World, org: Str)
    requires Inv(cfg, w) && NoOverlap(w, org)
    ensures WindowsBeaten(w, org) && Increasing(Rollouts(w.audit, org))
  {
    assert WindowsBeaten(w, org) by {
      forall c | 0 <= c < |w.calls|
        ensures CallBeatsWindow(w, org, c)
      {
      }
    }
    ForwardIffWindowsBeaten(cfg, w, org);
  }

  lemma CurrentIsLast(audit: seq<AuditEntry>, org: Str)
    ensures var vs := Rollouts(audit, org); Current(audit, org) == if vs == [] then [] else vs[|vs| - 1]
  {
  }

  /** In every interleaving an organisation's rollouts strictly increase if and only if its accepted calls
    beat their windows, as they do when no other acceptance of the organisation falls into one. Then the
    current version beats every earlier one, and no version is accepted twice, in any spelling. */
  lemma DowngradeProtection(cfg: Config, moves: seq<Move>, org: Str)
    ensures var w := Steps(cfg, START, moves);
            var vs := Rollouts(w.audit, org);
            && (Increasing(vs) <==> WindowsBeaten(w, org))
            && (NoOverlap(w, org) ==> WindowsBeaten(w, org))
            && (WindowsBeaten(w, org) ==>
                  && |vs| <= RANK_LIMIT
                  && (forall i, j :: 0 <= i < j < |vs| ==> Compare(vs[j], vs[i]) == Some(1))
                  && (forall i :: 0 <= i < |vs| - 1 ==> Compare(Current(w.audit, org), vs[i]) == Some(1)))
  {
    var w := Steps(cfg, START, moves);
    StartInv(cfg);
    InvHolds(cfg, START, moves);
    ForwardIffWindowsBeaten(cfg, w, org);
    if NoOverlap(w, org) {
      NoOverlapForward(cfg, w, org);
    }
    if Increasing(Rollouts(w.audit, org)) {
      AllBeaten(Rollouts(w.audit, org));
    }
    CurrentIsLast(w.audit, org);
  }

  lemma AllBeaten(vs: seq<Str>)
    requires Increasing(vs)
    ensures |vs| <= RANK_LIMIT
    ensures forall i, j :: 0 <= i < j < |vs| ==> Compare(vs[j], vs[i]) == Some(1)
  {
    ChainBound(vs);
    forall i, j | 0 <= i < j < |vs|
      ensures Compare(vs[j], vs[i]) == Some(1)
    {
      IncreasingBeats(vs, i, j);
    }
  }

  // ----- Where it ends: two calls that both read before either records -----

  lemma StepsOne(cfg: Config, w: World, a: Move)
    ensures Steps(cfg, w, [a]) == Next(cfg, w, a)
  {
    assert [a][..0] == [];
  }

  lemma {:induction false} StepsAppend(cfg: Config, w: World, a: seq<Move>, b: seq<Move>)
    ensures Steps(cfg, w, a + b) == Steps(cfg, Steps(cfg, w, a), b)
  {
    if b == [] {
      assert a + b == a;
    } else {
      assert (a + b)[..|a + b| - 1] == a + b[..|b| - 1];
      StepsAppend(cfg, w, a, b[..|b| - 1]);
    }
  }

  /** From any world in which two calls of one organisation have both been cleared to publish, both get
    recorded, in whichever order they go on: the second one's version is not compared again. */
  lemma BothRecorded(cfg: Config, w: World, c: nat, d: nat, now: Time)
    requires c < |w.calls| && d < |w.calls| && c != d
    requires w.calls[c].phase.Cleared? && w.calls[d].phase.Cleared?
    requires w.calls[c].request.Decoded? && w.calls[d].request.Decoded?
    requires w.calls[c].caller.orgId == w.calls[d].caller.orgId
    ensures var go := (x: nat) => Advance(x, true, now);
            var w' := Steps(cfg, w, [go(c), go(c), go(d), go(d)]);
            Rollouts(w'.audit, w.calls[c].caller.orgId) ==
            Rollouts(w.audit, w.calls[c].caller.orgId)
            + [w.calls[c].request.manifest.version, w.calls[d].request.manifest.version]
  {
    var moves := [Advance(c, true, now), Advance(c, true, now), Advance(d, true, now), Advance(d, true, now)];
    Recorded(cfg, w, c, now);
    var w1 := Steps(cfg, w, [Advance(c, true, now), Advance(c, true, now)]);
    Recorded(cfg, w1, d, now);
    StepsAppend(cfg, w, [Advance(c, true, now), Advance(c, true, now)], [Advance(d, true, now), Advance(d, true, now)]);
    assert moves == [Advance(c, true, now), Advance(c, true, now)] + [Advance(d, true, now), Advance(d, true, now)];
  }

  lemma Recorded(cfg: Config, w: World, c: nat, now: Time)
    requires c < |w.calls| && w.calls[c].phase.Cleared? && w.calls[c].request.Decoded?
    ensures var w' := Steps(cfg, w, [Advance(c, true, now), Advance(c, true, now)]);
            var org := w.calls[c].caller.orgId;
            && Rollouts(w'.audit, org) == Rollouts(w.audit, org) + [w.calls[c].request.manifest.version]
            && |w'.calls| == |w.calls| && (forall d :: 0 <= d < |w.calls| && d != c ==> w'.calls[d] == w.calls[d])
  {
    var step := Advance(c, true, now);
    assert [step, step][..1] == [step];
    StepsOne(cfg, w, step);
    var w' := Steps(cfg, w, [step, step]);
    var e := w'.audit[|w.audit|];
    assert w'.audit == w.audit + [e] && w'.audit[..|w.audit|] == w.audit;
    RejectedIsNotAccepted();
    RolloutsStep(w'.audit, w.calls[c].caller.orgId);
  }

  /** Such worlds are reached: two administrators of one organisation ask at the same time, and any two
    verified releases, in either order and even twice the same, end up accepted. */
  lemma OverlapDefeatsProtection(cfg: Config, id: Identity, m: Manifest, n: Manifest, now: Time)
    requires id.orgId != []
    requires Verify(cfg.crypto, cfg.key, m) == Ok(()) && Verify(cfg.crypto, cfg.key, n) == Ok(())
    ensures Rollouts(Steps(cfg, START, Overlapping(id, m, n, now)).audit, id.orgId) == [m.version, n.version]
  {
    var a, b := Advance(0, true, now), Advance(1, true, now);
    var w := World([Call(id, Decoded(m), Cleared(0)), Call(id, Decoded(n), Cleared(0))], [], [], []);
    BothCleared(cfg, id, m, n, now);
    BothRecorded(cfg, w, 0, 1, now);
    StepsAppend(cfg, START, [Arrive(id, Decoded(m)), Arrive(id, Decoded(n))] + [a, b, a, b], [a, a, b, b]);
    assert Rollouts([], id.orgId) == [];
  }

  /** Both calls arrive, both are verified, both read the empty history, then one publishes and records
    and after it the other. */
  function Overlapping(id: Identity, m: Manifest, n: Manifest, now: Time): seq<Move> {
    var a, b := Advance(0, true, now), Advance(1, true, now);
    [Arrive(id, Decoded(m)), Arrive(id, Decoded(n))] + [a, b, a, b] + [a, a, b, b]
  }

  lemma StepsTwo(cfg: Config, w: World, a: Move, b: Move)
    ensures Steps(cfg, w, [a, b]) == Next(cfg, Next(cfg, w, a), b)
  {
    StepsOne(cfg, w, a);
    assert [a, b][..1] == [a];
  }

  lemma BothCleared(cfg: Config, id: Identity, m: Manifest, n: Manifest, now: Time)
    requires id.orgId != []
    requires Verify(cfg.crypto, cfg.key, m) == Ok(()) && Verify(cfg.crypto, cfg.key, n) == Ok(())
    ensures var a, b := Advance(0, true, now), Advance(1, true, now);
            var w := Steps(cfg, START, [Arrive(id, Decoded(m)), Arrive(id, Decoded(n))] + [a, b, a, b]);
            w == World([Call(id, Decoded(m), Cleared(0)), Call(id, Decoded(n), Cleared(0))], [], [], [])
  {
    var a, b := Advance(0, true, now), Advance(1, true, now);
    var opening := [Arrive(id, Decoded(m)), Arrive(id, Decoded(n))];
    StepsTwo(cfg, START, opening[0], opening[1]);
    var w0 := World([Call(id, Decoded(m), Arrived), Call(id, Decoded(n), Arrived)], [], [], []);
    assert Steps(cfg, START, opening) == w0;
    BothAdvance(cfg, w0, a, b, Verified);
    var w1 := World([Call(id, Decoded(m), Verified), Call(id, Decoded(n), Verified)], [], [], []);
    BothAdvance(cfg, w1, a, b, Cleared(0));
    StepsAppend(cfg, w0, [a, b], [a, b]);
    StepsAppend(cfg, START, opening, [a, b, a, b]);
    assert [a, b] + [a, b] == [a, b, a, b];
  }

  lemma BothAdvance(cfg: Config, w: World, a: Move, b: Move, phase: Phase)
    requires |w.calls| == 2 && w.audit == [] && a.Advance? && b.Advance? && a.call == 0 && b.call == 1
    requires Checked(cfg, w.calls[0].request) && Checked(cfg, w.calls[1].request)
    requires w.calls[0].phase == w.calls[1].phase
    requires (w.calls[0].phase == Arrived && phase == Verified) || (w.calls[0].phase == Verified && phase == Cleared(0))
    ensures Steps(cfg, w, [a, b]) == w.(calls := [w.calls[0].(phase := phase), w.calls[1].(phase := phase)])
  {
    StepsTwo(cfg, w, a, b);
    assert Current([], w.calls[0].caller.orgId) == [] == Current([], w.calls[1].caller.orgId);
  }
}
