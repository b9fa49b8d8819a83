/** The rollout service as interleaved steps. No lock spans a call to `create`: between verifying the
  manifest, reading the history, publishing and recording, any other call may take any step. */
module Rollout {
  import opened Bytes
  import opened Records
  import opened Release
  import opened Version

  const OK_STATUS: nat := 200
  const ACCEPTED_STATUS: nat := 202
  const BAD_REQUEST: nat := 400
  const UNAUTHORIZED: nat := 401
  const FORBIDDEN: nat := 403
  const CONFLICT: nat := 409
  const INTERNAL_ERROR: nat := 500
  const BAD_GATEWAY: nat := 502

  function ActionAccepted(): Str {
    Ascii("rollout.accepted")
  }

  function ActionRejected(): Str {
    Ascii("rollout.rejected")
  }

  /** A body that does not decode still leaves whatever version string was read so far. */
  datatype Request = Undecodable(partialVersion: Str) | Decoded(manifest: Manifest) {
    function Target(): Str {
      if Undecodable? then partialVersion else manifest.version
    }
  }

  datatype Config = Config(crypto: Crypto, key: Str)

  /** How far a call has come. `readAt` and `publishedAt` are the lengths of the audit log when the
    call read it and when the CDN took the release; `release` and `entry` say which publication and
    which audit entry are its own. */
  datatype Phase =
    | Arrived
    | Verified
    | Cleared(readAt: nat)
    | Live(readAt: nat, publishedAt: nat, release: nat)
    | Accepted(readAt: nat, publishedAt: nat, release: nat, entry: nat)
    | Refusing(status: nat, reason: Str)
    | Refused(status: nat, entry: nat)
    | Failed

  datatype Call = Call(caller: Identity, request: Request, phase: Phase)

  datatype Publication = Publication(call: nat, org: Str, manifest: Manifest)

  /** `authors[i]` is the call that wrote `audit[i]`. */
  datatype World = World(calls: seq<Call>, audit: seq<AuditEntry>, authors: seq<nat>, published: seq<Publication>)

  /** A request arrives, or the call takes its next step. `published` is the CDN's answer, if this is
    the step that asks it, and `now` the clock, if this is one that records. */
  datatype Move = Arrive(caller: Identity, request: Request) | Advance(call: nat, published: bool, now: Time)

  const START := World([], [], [], [])

  // ----- Reading the history -----

  function AcceptedOf(audit: seq<AuditEntry>, org: Str): seq<AuditEntry> {
    Select(audit, org, ActionAccepted())
  }

  /** The target of the newest accepted entry; empty when there is none. */
  function Current(audit: seq<AuditEntry>, org: Str): Str {
    var newestFirst := Reverse(AcceptedOf(audit, org));
    if newestFirst == [] then [] else newestFirst[0].target
  }

  datatype Decision = Proceed | Downgrade | Unreadable

  function Decide(current: Str, version: Str): Decision {
    if current == [] then Proceed
    else
      match Compare(version, current)
      case None => Unreadable
      case Some(c) => if c <= 0 then Downgrade else Proceed
  }

  /** The two entries field by field. */
  lemma EntriesExactly(caller: Identity, version: Str, reason: Str, now: Time)
    ensures AcceptedEntry(caller, version, now) ==
            AuditEntry(now, caller.subject, caller.orgId, Ascii("rollout.accepted"), version, Ascii("allowed"), [])
    ensures RejectedEntry(caller, version, reason, now) ==
            AuditEntry(now, caller.subject, caller.orgId, Ascii("rollout.rejected"), version, Ascii("denied"), reason)
  {
  }

  // ----- Steps -----

  function AcceptedEntry(caller: Identity, version: Str, now: Time): AuditEntry {
    Filed(caller.orgId,
          AuditEntry(ZERO_TIME, caller.subject, [], ActionAccepted(), version, Ascii("allowed"), []), now)
  }

  function RejectedEntry(caller: Identity, version: Str, reason: Str, now: Time): AuditEntry {
    Filed(caller.orgId,
          AuditEntry(ZERO_TIME, caller.subject, [], ActionRejected(), version, Ascii("denied"), reason), now)
  }

  function AfterVerify(cfg: Config, request: Request): Phase {
    match request
    case Undecodable(_) => Refusing(BAD_REQUEST, Ascii("undecodable manifest"))
    case Decoded(m) =>
      match Verify(cfg.crypto, cfg.key, m)
      case Ok(_) => Verified
      case Err(BadSignature) => Refusing(FORBIDDEN, Ascii("signature verification failed"))
      case Err(_) => Refusing(BAD_REQUEST, Ascii("signature verification failed"))
  }

  function AfterRead(audit: seq<AuditEntry>, org: Str, version: Str): Phase {
    match Decide(Current(audit, org), version)
    case Proceed => Cleared(|audit|)
    case Downgrade => Refusing(CONFLICT, Ascii("downgrade refused"))
    case Unreadable => Failed
  }

  function WithPhase(w: World, c: nat, phase: Phase): World
    requires c < |w.calls|
  {
    w.(calls := w.calls[c := w.calls[c].(phase := phase)])
  }

  function WithEntry(w: World, c: nat, phase: Phase, e: AuditEntry): World
    requires c < |w.calls|
  {
    WithPhase(w, c, phase).(audit := w.audit + [e], authors := w.authors + [c])
  }

  function Advanced(cfg: Config, w: World, c: nat, published: bool, now: Time): World
    requires c < |w.calls|
  {
    var call := w.calls[c];
    var org, version := call.caller.orgId, call.request.Target();
    match call.phase
    case Arrived => WithPhase(w, c, AfterVerify(cfg, call.request))
    case Verified => WithPhase(w, c, AfterRead(w.audit, org, version))
    case Cleared(readAt) =>
      if published && call.request.Decoded? then
        WithPhase(w, c, Live(readAt, |w.audit|, |w.published|))
        .(published := w.published + [Publication(c, org, call.request.manifest)])
      else WithPhase(w, c, Refusing(BAD_GATEWAY, Ascii("cdn publish failed")))
    case Live(readAt, publishedAt, release) =>
      WithEntry(w, c, Accepted(readAt, publishedAt, release, |w.audit|), AcceptedEntry(call.caller, version, now))
    case Refusing(status, reason) =>
      WithEntry(w, c, Refused(status, |w.audit|), RejectedEntry(call.caller, version, reason, now))
    case _ => w
  }

  /** One step; a caller without an organisation is turned away and a call that is over stays so. */
  function Next(cfg: Config, w: World, move: Move): World {
    match move
    case Arrive(id, request) =>
      if id.orgId == [] then w else w.(calls := w.calls + [Call(id, request, Arrived)])
    case Advance(c, published, now) =>
      if c < |w.calls| then Advanced(cfg, w, c, published, now) else w
  }

  /** Every sequence of moves is a run, and every interleaving is one of them. */
  function Steps(cfg: Config, w: World, moves: seq<Move>): World {
    if moves == [] then w else Next(cfg, Steps(cfg, w, moves[..|moves| - 1]), moves[|moves| - 1])
  }

  // ----- The invariant of every interleaving -----

  predicate Checked(cfg: Config, request: Request) {
    request.Decoded? && Verify(cfg.crypto, cfg.key, request.manifest) == Ok(())
  }

  predicate Beat(w: World, call: Call, readAt: nat) {
    readAt <= |w.audit| && Decide(Current(w.audit[..readAt], call.caller.orgId), call.request.Target()) == Proceed
  }

  predicate IsRelease(w: World, c: nat, call: Call, release: nat) {
    && release < |w.published|
    && call.request.Decoded?
    && w.published[release] == Publication(c, call.caller.orgId, call.request.manifest)
  }

  /** The refusals there are: each status with the reasons recorded for it. */
  predicate Refusal(status: nat, reason: Str) {
    || (status == 400 && reason in {Ascii("undecodable manifest"), Ascii("signature verification failed")})
    || (status == 403 && reason == Ascii("signature verification failed"))
    || (status == 409 && reason == Ascii("downgrade refused"))
    || (status == 502 && reason == Ascii("cdn publish failed"))
  }

  predicate CallOk(cfg: Config, w: World, c: nat, call: Call) {
    call.caller.orgId != [] &&
    match call.phase
    case Verified => Checked(cfg, call.request)
    case Cleared(readAt) => Checked(cfg, call.request) && Beat(w, call, readAt)
    case Live(readAt, publishedAt, release) =>
      && Checked(cfg, call.request) && Beat(w, call, readAt)
      && readAt <= publishedAt <= |w.audit|
      && IsRelease(w, c, call, release)
    case Accepted(readAt, publishedAt, release, entry) =>
      && Checked(cfg, call.request) && Beat(w, call, readAt)
      && readAt <= publishedAt <= entry < |w.audit| == |w.authors|
      && IsRelease(w, c, call, release)
      && w.authors[entry] == c
    case Refused(status, entry) =>
      entry < |w.audit| == |w.authors| && w.authors[entry] == c && status != ACCEPTED_STATUS
    case Refusing(status, reason) => Refusal(status, reason)
    case Failed => false
    case Arrived => true
  }

  predicate AcceptanceOk(e: AuditEntry) {
    e.action == ActionAccepted() && e.outcome == Ascii("allowed") && e.reason == []
  }

  predicate RejectionOk(e: AuditEntry, status: nat) {
    e.action == ActionRejected() && e.outcome == Ascii("denied") && Refusal(status, e.reason)
  }

  predicate EntryOk(w: World, i: nat)
    requires i < |w.audit| == |w.authors|
  {
    w.authors[i] < |w.calls| &&
    var call := w.calls[w.authors[i]];
    && w.audit[i].orgId == call.caller.orgId
    && w.audit[i].actor == call.caller.subject
    && w.audit[i].target == call.request.Target()
    && ((call.phase.Accepted? && call.phase.entry == i && AcceptanceOk(w.audit[i]))
        || (call.phase.Refused? && call.phase.entry == i && RejectionOk(w.audit[i], call.phase.status)))
  }

  ghost predicate CallsOk(cfg: Config, w: World) {
    forall c :: 0 <= c < |w.calls| ==> CallOk(cfg, w, c, w.calls[c])
  }

  ghost predicate EntriesOk(w: World) {
    |w.audit| == |w.authors| && forall i :: 0 <= i < |w.audit| ==> EntryOk(w, i)
  }

  ghost predicate Inv(cfg: Config, w: World) {
    CallsOk(cfg, w) && EntriesOk(w)
  }

  lemma RejectedIsNotAccepted()
    ensures !HasPrefix(ActionRejected(), ActionAccepted()) && HasPrefix(ActionAccepted(), ActionAccepted())
  {
    assert ActionRejected()[8] != ActionAccepted()[8];
  }

  lemma SelectedAction(w: World, i: nat)
    requires i < |w.audit| == |w.authors| && EntryOk(w, i)
    ensures HasPrefix(w.audit[i].action, ActionAccepted()) <==> w.calls[w.authors[i]].phase.Accepted?
  {
    RejectedIsNotAccepted();
  }

  lemma {:induction false} SelectMembers(audit: seq<AuditEntry>, org: Str, prefix: Str, e: AuditEntry)
    requires e in Select(audit, org, prefix)
    ensures e in audit && e.orgId == org && HasPrefix(e.action, prefix)
  {
    if e in Select(audit[..|audit| - 1], org, prefix) {
      SelectMembers(audit[..|audit| - 1], org, prefix, e);
    }
  }

  /** The current version is the target of the newest accepted entry in the whole log. */
  lemma {:induction false} NewestAccepted(audit: seq<AuditEntry>, org: Str) returns (i: nat)
    requires AcceptedOf(audit, org) != []
    ensures i < |audit| && audit[i].orgId == org && HasPrefix(audit[i].action, ActionAccepted())
    ensures Current(audit, org) == audit[i].target
    ensures forall j :: i < j < |audit| ==> !(audit[j].orgId == org && HasPrefix(audit[j].action, ActionAccepted()))
  {
    i := |audit| - 1;
    if audit[i].orgId != org || !HasPrefix(audit[i].action, ActionAccepted()) {
      var es := AcceptedOf(audit[..i], org);
      assert es + [] == es;
      i := NewestAccepted(audit[..i], org);
    }
  }

  lemma AcceptedReadable(cfg: Config, w: World, i: nat)
    requires Inv(cfg, w) && i < |w.audit| && HasPrefix(w.audit[i].action, ActionAccepted())
    ensures Parse(w.audit[i].target).Some?
  {
    assert EntryOk(w, i);
    SelectedAction(w, i);
    assert CallOk(cfg, w, w.authors[i], w.calls[w.authors[i]]);
  }

  /** Everything on record as accepted is a readable version, so an empty current version only ever
    means that nothing was rolled out yet, and comparing with it never fails. */
  lemma CurrentReadable(cfg: Config, w: World, org: Str)
    requires Inv(cfg, w)
    ensures Current(w.audit, org) == [] <==> AcceptedOf(w.audit, org) == []
    ensures Current(w.audit, org) != [] ==> Parse(Current(w.audit, org)).Some?
  {
    if AcceptedOf(w.audit, org) != [] {
      var i := NewestAccepted(w.audit, org);
      AcceptedReadable(cfg, w, i);
    }
  }

  /** What another call's step leaves of a call's own facts. */
  lemma CallOkGrows(cfg: Config, w: World, w': World, c: nat, call: Call)
    requires CallOk(cfg, w, c, call) && |w.audit| == |w.authors| && |w'.audit| == |w'.authors|
    requires w.audit <= w'.audit && w.authors <= w'.authors && w.published <= w'.published
    ensures CallOk(cfg, w', c, call)
  {
    if call.phase.Cleared? || call.phase.Live? || call.phase.Accepted? {
      assert w'.audit[..call.phase.readAt] == w.audit[..call.phase.readAt];
    }
  }

  lemma ReadCallOk(cfg: Config, w: World, c: nat, call: Call)
    requires Inv(cfg, w) && c < |w.calls| && call == w.calls[c] && call.phase.Verified?
    ensures var phase := AfterRead(w.audit, call.caller.orgId, call.request.Target());
            CallOk(cfg, w, c, call.(phase := phase))
  {
    assert CallOk(cfg, w, c, call);
    CurrentReadable(cfg, w, call.caller.orgId);
    assert w.audit[..|w.audit|] == w.audit;
  }

  lemma OwnCallOk(cfg: Config, w: World, c: nat, published: bool, now: Time)
    requires Inv(cfg, w) && c < |w.calls|
    ensures CallOk(cfg, Advanced(cfg, w, c, published, now), c, Advanced(cfg, w, c, published, now).calls[c])
  {
    var call := w.calls[c];
    assert CallOk(cfg, w, c, call);
    match call.phase
    case Arrived => ArrivedCallOk(cfg, w, c, call);
    case Verified => ReadCallOk(cfg, w, c, call);
    case Cleared(_) => ClearedCallOk(cfg, w, c, call, published, now);
    case Live(_, _, _) => LiveCallOk(cfg, w, c, call, now);
    case Refusing(_, _) => RefusingCallOk(cfg, w, c, call, published, now);
    case _ =>
  }

  lemma ArrivedCallOk(cfg: Config, w: World, c: nat, call: Call)
    requires call.caller.orgId != []
    ensures CallOk(cfg, w, c, call.(phase := AfterVerify(cfg, call.request)))
  {
  }

  lemma ClearedCallOk(cfg: Config, w: World, c: nat, call: Call, published: bool, now: Time)
    requires CallOk(cfg, w, c, call) && c < |w.calls| && call == w.calls[c] && call.phase.Cleared?
    ensures CallOk(cfg, Advanced(cfg, w, c, published, now), c, Advanced(cfg, w, c, published, now).calls[c])
  {
  }

  lemma RefusingCallOk(cfg: Config, w: World, c: nat, call: Call, published: bool, now: Time)
    requires CallOk(cfg, w, c, call) && c < |w.calls| && call == w.calls[c] && call.phase.Refusing?
    requires |w.audit| == |w.authors|
    ensures CallOk(cfg, Advanced(cfg, w, c, published, now), c, Advanced(cfg, w, c, published, now).calls[c])
  {
  }

  lemma LiveCallOk(cfg: Config, w: World, c: nat, call: Call, now: Time)
    requires CallOk(cfg, w, c, call) && c < |w.calls| && call == w.calls[c] && call.phase.Live?
    requires |w.audit| == |w.authors|
    ensures CallOk(cfg, Advanced(cfg, w, c, true, now), c, Advanced(cfg, w, c, true, now).calls[c])
    ensures CallOk(cfg, Advanced(cfg, w, c, false, now), c, Advanced(cfg, w, c, false, now).calls[c])
  {
    assert Advanced(cfg, w, c, true, now).audit[..call.phase.readAt] == w.audit[..call.phase.readAt];
  }

  predicate HasEntry(phase: Phase) {
    phase.Accepted? || phase.Refused?
  }

  /** A step of a call that has recorded nothing, and records nothing now. */
  lemma PhaseKeepsEntries(w: World, w': World, c: nat, phase: Phase)
    requires EntriesOk(w) && c < |w.calls| && !HasEntry(w.calls[c].phase)
    requires w'.calls == WithPhase(w, c, phase).calls && w'.audit == w.audit && w'.authors == w.authors
    ensures EntriesOk(w')
  {
    forall i | 0 <= i < |w'.audit|
      ensures EntryOk(w', i)
    {
      assert EntryOk(w, i);
    }
  }

  /** The step that records. */
  lemma EntryAdded(w: World, c: nat, phase: Phase, e: AuditEntry)
    requires EntriesOk(w) && c < |w.calls| && !HasEntry(w.calls[c].phase)
    requires HasEntry(phase) && phase.entry == |w.audit|
    requires var call := w.calls[c];
             && e.orgId == call.caller.orgId && e.actor == call.caller.subject && e.target == call.request.Target()
             && if phase.Accepted? then AcceptanceOk(e) else RejectionOk(e, phase.status)
    ensures EntriesOk(WithEntry(w, c, phase, e))
  {
    var w' := WithEntry(w, c, phase, e);
    forall i | 0 <= i < |w'.audit|
      ensures EntryOk(w', i)
    {
      if i < |w.audit| {
        assert EntryOk(w, i);
      }
    }
  }

  lemma EntriesOkStep(cfg: Config, w: World, c: nat, published: bool, now: Time)
    requires Inv(cfg, w) && c < |w.calls|
    ensures EntriesOk(Advanced(cfg, w, c, published, now))
  {
    var call, w' := w.calls[c], Advanced(cfg, w, c, published, now);
    var version := call.request.Target();
    match call.phase
    case Live(readAt, publishedAt, release) =>
      EntryAdded(w, c, Accepted(readAt, publishedAt, release, |w.audit|), AcceptedEntry(call.caller, version, now));
    case Refusing(status, reason) =>
      EntryAdded(w, c, Refused(status, |w.audit|), RejectedEntry(call.caller, version, reason, now));
    case Arrived => PhaseKeepsEntries(w, w', c, w'.calls[c].phase);
    case Verified => PhaseKeepsEntries(w, w', c, w'.calls[c].phase);
    case Cleared(_) => PhaseKeepsEntries(w, w', c, w'.calls[c].phase);
    case _ =>
  }

  lemma AdvanceKeepsInv(cfg: Config, w: World, c: nat, published: bool, now: Time)
    requires Inv(cfg, w) && c < |w.calls|
    ensures Inv(cfg, Advanced(cfg, w, c, published, now))
  {
    var w' := Advanced(cfg, w, c, published, now);
    EntriesOkStep(cfg, w, c, published, now);
    forall d | 0 <= d < |w'.calls|
      ensures CallOk(cfg, w', d, w'.calls[d])
    {
      if d == c {
        OwnCallOk(cfg, w, c, published, now);
      } else {
        CallOkGrows(cfg, w, w', d, w.calls[d]);
      }
    }
  }

  lemma ArriveKeepsInv(cfg: Config, w: World, id: Identity, request: Request)
    requires Inv(cfg, w)
    ensures Inv(cfg, Next(cfg, w, Arrive(id, request)))
  {
    var w' := Next(cfg, w, Arrive(id, request));
    forall i | 0 <= i < |w'.audit|
      ensures EntryOk(w', i)
    {
      assert EntryOk(w, i);
    }
    forall d | 0 <= d < |w'.calls|
      ensures CallOk(cfg, w', d, w'.calls[d])
    {
      if d < |w.calls| {
        CallOkGrows(cfg, w, w', d, w.calls[d]);
      }
    }
  }

  lemma {:induction false} InvHolds(cfg: Config, w: World, moves: seq<Move>)
    requires Inv(cfg, w)
    ensures Inv(cfg, Steps(cfg, w, moves))
  {
    if moves != [] {
      InvHolds(cfg, w, moves[..|moves| - 1]);
      match moves[|moves| - 1]
      case Arrive(id, request) => ArriveKeepsInv(cfg, Steps(cfg, w, moves[..|moves| - 1]), id, request);
      case Advance(c, published, now) =>
        if c < |Steps(cfg, w, moves[..|moves| - 1]).calls| {
          AdvanceKeepsInv(cfg, Steps(cfg, w, moves[..|moves| - 1]), c, published, now);
        }
    }
  }
}
