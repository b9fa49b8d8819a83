/** The rollout service answering one request at a time: `create` as its code runs, proved to be one
  uninterrupted run of the interleaved steps. */
module RolloutService {
  import opened Bytes
  import opened Records
  import opened Store
  import opened Release
  import opened Version
  import opened Rollout
  import opened RolloutSafety

  /** One call that nobody interrupts: it arrives and takes its (at most four) steps. */
  function Alone(cfg: Config, w: World, id: Identity, request: Request, cdnOk: bool, now: Time): World {
    var step := Advance(|w.calls|, cdnOk, now);
    Steps(cfg, w, [Arrive(id, request), step, step, step, step])
  }

  /** The phase in which the call has its answer but has not recorded it. */
  function Verdict(cfg: Config, w: World, id: Identity, request: Request, cdnOk: bool): Phase {
    match AfterVerify(cfg, request)
    case Verified =>
      (match AfterRead(w.audit, id.orgId, request.Target())
       case Cleared(readAt) =>
         if cdnOk then Live(readAt, |w.audit|, |w.published|)
         else Refusing(BAD_GATEWAY, Ascii("cdn publish failed"))
       case phase => phase)
    case phase => phase
  }

  function StatusOf(phase: Phase): nat {
    match phase
    case Accepted(_, _, _, _) => ACCEPTED_STATUS
    case Refused(status, _) => status
    case _ => INTERNAL_ERROR
  }

  /** What the call leaves behind, case by case. */
  function Settled(w: World, id: Identity, request: Request, verdict: Phase, now: Time): World
    requires verdict.Live? ==> request.Decoded?
  {
    var n := |w.audit|;
    match verdict
    case Live(readAt, publishedAt, release) =>
      World(w.calls + [Call(id, request, Accepted(readAt, publishedAt, release, n))],
            w.audit + [AcceptedEntry(id, request.Target(), now)], w.authors + [|w.calls|],
            w.published + [Publication(|w.calls|, id.orgId, request.manifest)])
    case Refusing(status, reason) =>
      World(w.calls + [Call(id, request, Refused(status, n))],
            w.audit + [RejectedEntry(id, request.Target(), reason, now)], w.authors + [|w.calls|], w.published)
    case phase =>
      World(w.calls + [Call(id, request, phase)], w.audit, w.authors, w.published)
  }

  lemma VerdictKinds(cfg: Config, w: World, id: Identity, request: Request, cdnOk: bool)
    requires Inv(cfg, w) && id.orgId != []
    ensures var v := Verdict(cfg, w, id, request, cdnOk);
            (v.Live? && request.Decoded? && v.readAt == |w.audit|) || (v.Refusing? && v.status != ACCEPTED_STATUS)
  {
    if AfterVerify(cfg, request).Verified? {
      VerifiedVerdict(cfg, w, id, request.manifest, cdnOk);
    }
  }

  /** The verdict once the manifest verified, by the comparison with the history. */
  lemma VerdictByDecision(cfg: Config, w: World, id: Identity, request: Request, cdnOk: bool)
    requires AfterVerify(cfg, request) == Verified
    ensures Verdict(cfg, w, id, request, cdnOk) ==
            match Decide(Current(w.audit, id.orgId), request.Target())
            case Proceed =>
              if cdnOk then Live(|w.audit|, |w.audit|, |w.published|)
              else Refusing(BAD_GATEWAY, Ascii("cdn publish failed"))
            case Downgrade => Refusing(CONFLICT, Ascii("downgrade refused"))
            case Unreadable => Failed
  {
  }

  lemma AlwaysReadable(cfg: Config, w: World, org: Str, version: Str)
    requires Inv(cfg, w) && Parse(version).Some?
    ensures Decide(Current(w.audit, org), version) != Unreadable
  {
    CurrentReadable(cfg, w, org);
  }

  /** The verdict on a manifest whose signature verified. */
  lemma VerifiedVerdict(cfg: Config, w: World, id: Identity, m: Manifest, cdnOk: bool)
    requires Inv(cfg, w) && id.orgId != [] && Verify(cfg.crypto, cfg.key, m) == Ok(())
    ensures var decision := Decide(Current(w.audit, id.orgId), m.version);
            && decision != Unreadable
            && Verdict(cfg, w, id, Decoded(m), cdnOk) ==
               if decision == Downgrade then Refusing(CONFLICT, Ascii("downgrade refused"))
               else if cdnOk then Live(|w.audit|, |w.audit|, |w.published|)
               else Refusing(BAD_GATEWAY, Ascii("cdn publish failed"))
  {
    assert AfterVerify(cfg, Decoded(m)) == Verified;
    VerdictByDecision(cfg, w, id, Decoded(m), cdnOk);
    AlwaysReadable(cfg, w, id.orgId, m.version);
  }

  lemma FourSteps(cfg: Config, w: World, id: Identity, request: Request, step: Move)
    ensures Steps(cfg, w, [Arrive(id, request), step, step, step, step]) ==
            Next(cfg, Next(cfg, Next(cfg, Next(cfg, Next(cfg, w, Arrive(id, request)), step), step), step), step)
  {
    var w1 := Next(cfg, w, Arrive(id, request));
    StepsOne(cfg, w, Arrive(id, request));
    StepsTwo(cfg, w1, step, step);
    StepsTwo(cfg, Steps(cfg, w1, [step, step]), step, step);
    StepsAppend(cfg, w1, [step, step], [step, step]);
    StepsAppend(cfg, w, [Arrive(id, request)], [step, step] + [step, step]);
    assert [Arrive(id, request)] + ([step, step] + [step, step]) == [Arrive(id, request), step, step, step, step];
  }

  /** The world just after the new call arrived, with that call in the given phase. */
  function Joined(w: World, id: Identity, request: Request, phase: Phase): World {
    w.(calls := w.calls + [Call(id, request, phase)])
  }

  lemma FirstStep(cfg: Config, w: World, id: Identity, request: Request, cdnOk: bool, now: Time)
    ensures Next(cfg, Joined(w, id, request, Arrived), Advance(|w.calls|, cdnOk, now)) ==
            Joined(w, id, request, AfterVerify(cfg, request))
  {
  }

  lemma SecondStep(cfg: Config, w: World, id: Identity, request: Request, cdnOk: bool, now: Time)
    ensures Next(cfg, Joined(w, id, request, Verified), Advance(|w.calls|, cdnOk, now)) ==
            Joined(w, id, request, AfterRead(w.audit, id.orgId, request.Target()))
  {
  }

  lemma RefusingSteps(cfg: Config, w: World, id: Identity, request: Request, cdnOk: bool, now: Time, phase: Phase)
    requires phase.Refusing?
    ensures var step := Advance(|w.calls|, cdnOk, now);
            var settled := Settled(w, id, request, phase, now);
            Next(cfg, Joined(w, id, request, phase), step) == settled && Next(cfg, settled, step) == settled
  {
    var settled := Settled(w, id, request, phase, now);
    assert Next(cfg, Joined(w, id, request, phase), Advance(|w.calls|, cdnOk, now)).calls == settled.calls;
  }

  lemma ClearedSteps(cfg: Config, w: World, id: Identity, request: Request, cdnOk: bool, now: Time)
    requires request.Decoded?
    ensures var step := Advance(|w.calls|, cdnOk, now);
            var verdict := if cdnOk then Live(|w.audit|, |w.audit|, |w.published|)
                           else Refusing(BAD_GATEWAY, Ascii("cdn publish failed"));
            Next(cfg, Next(cfg, Joined(w, id, request, Cleared(|w.audit|)), step), step) ==
            Settled(w, id, request, verdict, now)
  {
    var step := Advance(|w.calls|, cdnOk, now);
    var w1 := Next(cfg, Joined(w, id, request, Cleared(|w.audit|)), step);
    if cdnOk {
      assert w1.calls == w.calls + [Call(id, request, Live(|w.audit|, |w.audit|, |w.published|))];
      assert Next(cfg, w1, step).calls ==
             w.calls + [Call(id, request, Accepted(|w.audit|, |w.audit|, |w.published|, |w.audit|))];
    } else {
      assert w1 == Joined(w, id, request, Refusing(BAD_GATEWAY, Ascii("cdn publish failed")));
      RefusingSteps(cfg, w, id, request, cdnOk, now, Refusing(BAD_GATEWAY, Ascii("cdn publish failed")));
    }
  }

  /** Running the steps of one call without interruption leaves exactly its settled verdict. */
  lemma AloneSettles(cfg: Config, w: World, id: Identity, request: Request, cdnOk: bool, now: Time)
    requires Inv(cfg, w) && id.orgId != []
    ensures var verdict := Verdict(cfg, w, id, request, cdnOk);
            (verdict.Live? ==> request.Decoded?)
            && Alone(cfg, w, id, request, cdnOk, now) == Settled(w, id, request, verdict, now)
  {
    var step := Advance(|w.calls|, cdnOk, now);
    FourSteps(cfg, w, id, request, step);
    FirstStep(cfg, w, id, request, cdnOk, now);
    var first := AfterVerify(cfg, request);
    if first.Refusing? {
      RefusingSteps(cfg, w, id, request, cdnOk, now, first);
    } else {
      VerifyAnswers(cfg, request);
      SecondStep(cfg, w, id, request, cdnOk, now);
      ReadSettles(cfg, w, id, request.manifest, cdnOk, now);
    }
  }

  /** The last two steps, once the history was read. */
  lemma ReadSettles(cfg: Config, w: World, id: Identity, m: Manifest, cdnOk: bool, now: Time)
    requires Inv(cfg, w) && id.orgId != [] && Verify(cfg.crypto, cfg.key, m) == Ok(())
    ensures var step, request := Advance(|w.calls|, cdnOk, now), Decoded(m);
            Next(cfg, Next(cfg, Joined(w, id, request, AfterRead(w.audit, id.orgId, m.version)), step), step) ==
            Settled(w, id, request, Verdict(cfg, w, id, request, cdnOk), now)
  {
    VerifiedVerdict(cfg, w, id, m, cdnOk);
    if Decide(Current(w.audit, id.orgId), m.version) == Downgrade {
      RefusingSteps(cfg, w, id, Decoded(m), cdnOk, now, Refusing(CONFLICT, Ascii("downgrade refused")));
    } else {
      ClearedSteps(cfg, w, id, Decoded(m), cdnOk, now);
    }
  }

  lemma AloneKeepsInv(cfg: Config, w: World, id: Identity, request: Request, cdnOk: bool, now: Time)
    requires Inv(cfg, w)
    ensures Inv(cfg, Alone(cfg, w, id, request, cdnOk, now))
  {
    var step := Advance(|w.calls|, cdnOk, now);
    InvHolds(cfg, w, [Arrive(id, request), step, step, step, step]);
  }

  /** A call nobody interrupts never overlaps another. */
  lemma AloneNeverOverlaps(cfg: Config, w: World, id: Identity, request: Request, cdnOk: bool, now: Time, org: Str)
    requires Inv(cfg, w) && id.orgId != [] && NoOverlap(w, org)
    ensures NoOverlap(Alone(cfg, w, id, request, cdnOk, now), org)
    ensures Increasing(Rollouts(Alone(cfg, w, id, request, cdnOk, now).audit, org))
  {
    var w' := Alone(cfg, w, id, request, cdnOk, now);
    AloneKeepsInv(cfg, w, id, request, cdnOk, now);
    AloneSettles(cfg, w, id, request, cdnOk, now);
    VerdictKinds(cfg, w, id, request, cdnOk);
    forall c | 0 <= c < |w'.calls| && w'.calls[c].phase.Accepted? && w'.calls[c].caller.orgId == org
               && w'.calls[c].phase.entry <= |w'.audit|
      ensures NoneBetween(w'.audit, org, w'.calls[c].phase.readAt, w'.calls[c].phase.entry)
    {
      if c < |w.calls| {
        assert w'.calls[c] == w.calls[c] && CallOk(cfg, w, c, w.calls[c]);
        assert NoneBetween(w.audit, org, w.calls[c].phase.readAt, w.calls[c].phase.entry);
      }
    }
    NoOverlapForward(cfg, w', org);
  }

  lemma SettledEffect(w: World, id: Identity, request: Request, verdict: Phase, now: Time)
    requires (verdict.Live? && request.Decoded?) || (verdict.Refusing? && verdict.status != ACCEPTED_STATUS)
    ensures var w' := Settled(w, id, request, verdict, now);
            && |w'.calls| == |w.calls| + 1
            && Effect(w, id, request, verdict, now,
                      w'.audit, Manifests(w'.published), StatusOf(w'.calls[|w.calls|].phase))
  {
  }

  /** What an uninterrupted call does to the log, the CDN and the history of calls. */
  lemma AloneEffect(cfg: Config, w: World, id: Identity, request: Request, cdnOk: bool, now: Time)
    requires Inv(cfg, w) && id.orgId != [] && forall org :: NoOverlap(w, org)
    ensures var w' := Alone(cfg, w, id, request, cdnOk, now);
            && Inv(cfg, w') && (forall org :: NoOverlap(w', org))
            && |w'.calls| == |w.calls| + 1
            && Effect(w, id, request, Verdict(cfg, w, id, request, cdnOk), now,
                      w'.audit, Manifests(w'.published), StatusOf(w'.calls[|w.calls|].phase))
  {
    AloneSettles(cfg, w, id, request, cdnOk, now);
    VerdictKinds(cfg, w, id, request, cdnOk);
    SettledEffect(w, id, request, Verdict(cfg, w, id, request, cdnOk), now);
    var w' := Alone(cfg, w, id, request, cdnOk, now);
    AloneKeepsInv(cfg, w, id, request, cdnOk, now);
    forall org
      ensures NoOverlap(w', org)
    {
      AloneNeverOverlaps(cfg, w, id, request, cdnOk, now, org);
    }
  }

  /** One entry, accepted together with a shipped manifest and the answer 202, or refused. */
  predicate Effect(w: World, id: Identity, request: Request, verdict: Phase, now: Time,
                   audit: seq<AuditEntry>, shipped: seq<Manifest>, status: nat) {
    match verdict
    case Live(_, _, _) =>
      && request.Decoded?
      && audit == w.audit + [AcceptedEntry(id, request.manifest.version, now)]
      && shipped == Manifests(w.published) + [request.manifest]
      && status == ACCEPTED_STATUS
    case Refusing(code, reason) =>
      && audit == w.audit + [RejectedEntry(id, request.Target(), reason, now)]
      && shipped == Manifests(w.published)
      && status == code != ACCEPTED_STATUS
    case _ => false
  }

  /** The answer a verdict stands for. */
  function AnswerOf(verdict: Phase): nat {
    match verdict
    case Live(_, _, _) => ACCEPTED_STATUS
    case Refusing(status, _) => status
    case _ => INTERNAL_ERROR
  }

  predicate Newer(w: World, org: Str, version: Str) {
    Current(w.audit, org) == [] || Compare(version, Current(w.audit, org)) == Some(1)
  }

  lemma VerifyAnswers(cfg: Config, request: Request)
    ensures var phase := AfterVerify(cfg, request);
            && (phase.Verified? <==> Checked(cfg, request))
            && (phase.Refusing? <==> !Checked(cfg, request))
            && (phase.Refusing? ==>
                  && phase.status in {BAD_REQUEST, FORBIDDEN}
                  && (phase.status == FORBIDDEN <==>
                        request.Decoded? && WellFormed(cfg.crypto, request.manifest) && |cfg.key| == KEY_SIZE))
  {
  }

  lemma ReadAnswers(cfg: Config, w: World, id: Identity, request: Request)
    requires Inv(cfg, w) && id.orgId != [] && Checked(cfg, request)
    ensures var phase := AfterRead(w.audit, id.orgId, request.Target());
            && (phase.Cleared? <==> Newer(w, id.orgId, request.Target()))
            && (phase.Refusing? <==> !Newer(w, id.orgId, request.Target()))
            && (phase.Refusing? ==> phase.status == CONFLICT)
  {
    CurrentReadable(cfg, w, id.orgId);
  }

  lemma SettledAnswer(w: World, id: Identity, request: Request, verdict: Phase, now: Time)
    requires (verdict.Live? && request.Decoded?) || verdict.Refusing?
    ensures var calls := Settled(w, id, request, verdict, now).calls;
            |calls| == |w.calls| + 1 && StatusOf(calls[|w.calls|].phase) == AnswerOf(verdict)
  {
  }

  /** What each answer means: 202, the manifest verified, its version is newer than anything the
    organisation accepted, and the CDN took it; 409, it verified but is not newer; 502, the CDN failed;
    403, it is well formed and there is a key, but the signature over just these bytes does not verify;
    400, anything else. */
  lemma AnswersExplained(cfg: Config, w: World, id: Identity, request: Request, cdnOk: bool, now: Time)
    requires Inv(cfg, w) && id.orgId != []
    ensures var calls := Alone(cfg, w, id, request, cdnOk, now).calls;
            |calls| == |w.calls| + 1 && Explained(cfg, w, id.orgId, request, cdnOk, StatusOf(calls[|w.calls|].phase))
  {
    AloneSettles(cfg, w, id, request, cdnOk, now);
    VerdictKinds(cfg, w, id, request, cdnOk);
    SettledAnswer(w, id, request, Verdict(cfg, w, id, request, cdnOk), now);
    VerdictExplained(cfg, w, id, request, cdnOk);
  }

  predicate Explained(cfg: Config, w: World, org: Str, request: Request, cdnOk: bool, status: nat) {
    var wellFormed := request.Decoded? && WellFormed(cfg.crypto, request.manifest) && |cfg.key| == 32;
    var signed := wellFormed && cfg.crypto.verifies(
      cfg.key,
      Ascii("sensorhub-firmware-release/v1") + [10] + request.manifest.version + [10] + request.manifest.digest + [10],
      cfg.crypto.decode(request.manifest.signature).value);
    var current := Current(w.audit, org);
    var newer := current == [] || Compare(request.Target(), current) == Some(1);
    && (status == 202 <==> signed && newer && cdnOk)
    && (status == 409 <==> signed && !newer)
    && (status == 502 <==> signed && newer && !cdnOk)
    && (status == 403 <==> wellFormed && !signed)
    && (status == 400 <==> !wellFormed)
  }

  lemma VerdictExplained(cfg: Config, w: World, id: Identity, request: Request, cdnOk: bool)
    requires Inv(cfg, w) && id.orgId != []
    ensures Explained(cfg, w, id.orgId, request, cdnOk, AnswerOf(Verdict(cfg, w, id, request, cdnOk)))
  {
    VerifyAnswers(cfg, request);
    if request.Decoded? {
      VerifyExactly(cfg.crypto, cfg.key, request.manifest);
    }
    if Checked(cfg, request) {
      VerdictByDecision(cfg, w, id, request, cdnOk);
      ReadAnswers(cfg, w, id, request);
    }
  }

  /** What an uninterrupted call writes down, field by field, given its answer. */
  lemma EntryExplained(cfg: Config, w: World, id: Identity, request: Request, cdnOk: bool, now: Time)
    requires Inv(cfg, w) && id.orgId != []
    ensures var w' := Alone(cfg, w, id, request, cdnOk, now);
            && |w'.calls| == |w.calls| + 1 && |w'.audit| == |w.audit| + 1 && w'.audit[..|w.audit|] == w.audit
            && var status, e := StatusOf(w'.calls[|w.calls|].phase), w'.audit[|w.audit|];
               && e.at == now && e.actor == id.subject && e.orgId == id.orgId
               && e.target == (if request.Decoded? then request.manifest.version else request.partialVersion)
               && e.action == (if status == 202 then Ascii("rollout.accepted") else Ascii("rollout.rejected"))
               && e.outcome == (if status == 202 then Ascii("allowed") else Ascii("denied"))
               && (status == 202 <==> e.reason == [])
               && (status != 202 ==> Refusal(status, e.reason))
               && (e.reason == Ascii("undecodable manifest") <==> request.Undecodable?)
  {
    AloneSettles(cfg, w, id, request, cdnOk, now);
    VerdictRefusal(cfg, w, id, request, cdnOk);
    EntryOfVerdict(w, id, request, Verdict(cfg, w, id, request, cdnOk), now);
  }

  lemma VerdictRefusal(cfg: Config, w: World, id: Identity, request: Request, cdnOk: bool)
    requires Inv(cfg, w) && id.orgId != []
    ensures var v := Verdict(cfg, w, id, request, cdnOk);
            && ((v.Live? && request.Decoded?) || (v.Refusing? && Refusal(v.status, v.reason)))
            && (v.Refusing? ==> (v.reason == Ascii("undecodable manifest") <==> request.Undecodable?))
  {
    ReasonsDiffer();
    if AfterVerify(cfg, request).Verified? {
      VerifiedVerdict(cfg, w, id, request.manifest, cdnOk);
    }
  }

  lemma ReasonsDiffer()
    ensures Ascii("undecodable manifest") !in {Ascii("signature verification failed"), Ascii("downgrade refused"),
                                               Ascii("cdn publish failed")}
  {
    assert Ascii("undecodable manifest")[0] == 117 && Ascii("signature verification failed")[0] == 115;
    assert Ascii("downgrade refused")[0] == 100 && Ascii("cdn publish failed")[0] == 99;
  }

  lemma EntryOfVerdict(w: World, id: Identity, request: Request, v: Phase, now: Time)
    requires (v.Live? && request.Decoded?) || (v.Refusing? && Refusal(v.status, v.reason))
    ensures var w' := Settled(w, id, request, v, now);
            && |w'.calls| == |w.calls| + 1 && |w'.audit| == |w.audit| + 1 && w'.audit[..|w.audit|] == w.audit
            && StatusOf(w'.calls[|w.calls|].phase) == (if v.Live? then 202 else v.status)
            && w'.audit[|w.audit|] ==
               if v.Live? then
                 AuditEntry(now, id.subject, id.orgId, Ascii("rollout.accepted"), request.Target(), Ascii("allowed"),
                            [])
               else
                 AuditEntry(now, id.subject, id.orgId, Ascii("rollout.rejected"), request.Target(), Ascii("denied"),
                            v.reason)
  {
    EntriesExactly(id, request.Target(), if v.Refusing? then v.reason else [], now);
  }

  function ListedActions(): Str {
    Ascii("rollout.")
  }

  lemma {:induction false} SelectAll(audit: seq<AuditEntry>, org: Str, prefix: Str)
    requires forall i :: 0 <= i < |audit| ==> HasPrefix(audit[i].action, prefix)
    ensures Select(audit, org, prefix) == Select(audit, org, [])
  {
    if audit != [] {
      SelectAll(audit[..|audit| - 1], org, prefix);
    }
  }

  /** The listing leaves nothing out: after every interleaving it holds all the organisation's entries. */
  lemma ListedInFull(cfg: Config, w: World, org: Str)
    requires Inv(cfg, w)
    ensures Select(w.audit, org, ListedActions()) == Select(w.audit, org, [])
  {
    var prefix := ListedActions();
    assert ActionAccepted()[..|prefix|] == prefix && ActionRejected()[..|prefix|] == prefix;
    forall i | 0 <= i < |w.audit|
      ensures HasPrefix(w.audit[i].action, prefix)
    {
      assert EntryOk(w, i);
    }
    SelectAll(w.audit, org, prefix);
  }

  function Manifests(ps: seq<Publication>): (ms: seq<Manifest>)
    ensures |ms| == |ps| && forall i :: 0 <= i < |ps| ==> ms[i] == ps[i].manifest
  {
    seq(|ps|, i requires 0 <= i < |ps| => ps[i].manifest)
  }

  class Service {
    const store: Store
    const cfg: Config
    /** What the CDN took, in order. */
    var shipped: seq<Manifest>
    ghost var world: World

    ghost predicate Valid()
      reads this, store
    {
      && store.View().Valid()
      && Inv(cfg, world)
      && store.audit == world.audit && shipped == Manifests(world.published)
      && forall org :: NoOverlap(world, org)
    }

    constructor (store: Store, cfg: Config)
      requires store.View().Valid() && store.audit == []
      ensures Valid() && this.store == store && this.cfg == cfg && world == START
    {
      this.store, this.cfg := store, cfg;
      shipped, world := [], START;
    }

    /** The last release the organisation accepted, or nothing. */
    method CurrentVersion(scope: Scope) returns (r: Result<Str, StoreError>)
      ensures r == if OrgOf(scope).Ok? then Ok(Current(store.audit, scope.org)) else Err(NoTenantScope)
    {
      var entries := store.Audit(scope, ActionAccepted());
      if entries.Err? {
        return Err(entries.error);
      }
      if |entries.value| == 0 {
        return Ok([]);
      }
      return Ok(entries.value[0].target);
    }

    /** `GET /api/rollouts`: the whole history of the caller's organisation, newest first. */
    method List(caller: Option<Identity>) returns (status: nat, entries: seq<AuditEntry>)
      requires Valid()
      ensures caller == None ==> status == 401 && entries == []
      ensures caller.Some? && caller.value.orgId == [] ==> status == 403 && entries == []
      ensures caller.Some? && caller.value.orgId != [] ==>
                status == 200 && entries == Reverse(Select(store.audit, caller.value.orgId, []))
    {
      if caller == None {
        return UNAUTHORIZED, [];
      }
      var scope := ScopeFor(caller.value);
      if scope.Err? {
        return FORBIDDEN, [];
      }
      ListedInFull(cfg, world, caller.value.orgId);
      var listed := store.Audit(scope.value, ListedActions());
      if listed.Err? {
        return INTERNAL_ERROR, [];
      }
      return OK_STATUS, listed.value;
    }

    /** Records a refused attempt, then answers. */
    method Reject(id: Identity, scope: Scope, version: Str, status: nat, reason: Str, now: Time) returns (r: nat)
      requires store.View().Valid() && ScopeFor(id) == Ok(scope)
      modifies store
      ensures store.View().Valid() && r == status
      ensures store.View() == old(store.View()).(audit := old(store.audit) + [RejectedEntry(id, version, reason, now)])
    {
      var entry := AuditEntry(ZERO_TIME, id.subject, [], ActionRejected(), version, Ascii("denied"), reason);
      var _ := store.AppendAudit(scope, entry, now);
      return status;
    }

    /** `POST /api/rollouts`. */
    method Create(caller: Option<Identity>, request: Request, cdnOk: bool, now: Time) returns (status: nat)
      requires Valid()
      modifies this, store
      ensures Valid()
      ensures caller == None ==> status == 401
      ensures caller.Some? && caller.value.orgId == [] ==> status == 403
      ensures caller == None || caller.value.orgId == [] ==> unchanged(this) && unchanged(store)
      ensures caller.Some? && caller.value.orgId != [] ==>
                && world == Alone(cfg, old(world), caller.value, request, cdnOk, now)
                && |store.audit| == |old(store.audit)| + 1
                && |world.calls| == |old(world.calls)| + 1
                && status == StatusOf(world.calls[|old(world.calls)|].phase)
                && store.View() == old(store.View()).(audit := world.audit)
      ensures forall org :: Increasing(Rollouts(store.audit, org))
    {
      if caller == None {
        AlwaysForward();
        return UNAUTHORIZED;
      }
      var id := caller.value;
      var scope := ScopeFor(id);
      if scope.Err? {
        AlwaysForward();
        return FORBIDDEN;
      }
      ghost var before := world;
      status := Answer(id, scope.value, request, cdnOk, now);
      AloneEffect(cfg, before, id, request, cdnOk, now);
      world := Alone(cfg, before, id, request, cdnOk, now);
      AlwaysForward();
    }

    /** The body of `create` once the caller is known. */
    method Answer(id: Identity, scope: Scope, request: Request, cdnOk: bool, now: Time) returns (status: nat)
      requires store.View().Valid() && ScopeFor(id) == Ok(scope) && Inv(cfg, world)
      requires store.audit == world.audit && shipped == Manifests(world.published)
      modifies this`shipped, store
      ensures store.View().Valid()
      ensures store.View() == old(store.View()).(audit := store.audit)
      ensures Effect(world, id, request, Verdict(cfg, world, id, request, cdnOk), now, store.audit, shipped, status)
    {
      VerdictKinds(cfg, world, id, request, cdnOk);
      if request.Undecodable? {
        status := Reject(id, scope, request.partialVersion, BAD_REQUEST, Ascii("undecodable manifest"), now);
        return;
      }
      var m := request.manifest;
      var verified := Verify(cfg.crypto, cfg.key, m);
      if verified.Err? {
        status := if verified.error == BadSignature then FORBIDDEN else BAD_REQUEST;
        status := Reject(id, scope, m.version, status, Ascii("signature verification failed"), now);
        return;
      }
      status := Release(id, scope, m, cdnOk, now);
    }

    /** The rest of it, for a manifest whose signature verified. */
    method Release(id: Identity, scope: Scope, m: Manifest, cdnOk: bool, now: Time) returns (status: nat)
      requires store.View().Valid() && ScopeFor(id) == Ok(scope) && Inv(cfg, world)
      requires store.audit == world.audit && shipped == Manifests(world.published)
      requires Verify(cfg.crypto, cfg.key, m) == Ok(())
      modifies this`shipped, store
      ensures store.View().Valid()
      ensures store.View() == old(store.View()).(audit := store.audit)
      ensures Effect(world, id, Decoded(m), Verdict(cfg, world, id, Decoded(m), cdnOk), now,
                     store.audit, shipped, status)
    {
      VerifiedVerdict(cfg, world, id, m, cdnOk);
      var current := CurrentVersion(scope);
      if current.Err? {
        return INTERNAL_ERROR;
      }
      if current.value != [] {
        var cmp := CompareVersions(m.version, current.value);
        if cmp.None? {
          return INTERNAL_ERROR;
        }
        if cmp.value <= 0 {
          status := Reject(id, scope, m.version, CONFLICT, Ascii("downgrade refused"), now);
          return;
        }
      }
      status := Publish(id, scope, m, cdnOk, now);
    }

    /** The end of it, for a manifest that may go out: ship it, then record that. */
    method Publish(id: Identity, scope: Scope, m: Manifest, cdnOk: bool, now: Time) returns (status: nat)
      requires store.View().Valid() && ScopeFor(id) == Ok(scope)
      modifies this`shipped, store
      ensures store.View().Valid()
      ensures status == if cdnOk then 202 else 502
      ensures shipped == if cdnOk then old(shipped) + [m] else old(shipped)
      ensures store.View() ==
              old(store.View()).(audit := old(store.audit) +
                [if cdnOk then AcceptedEntry(id, m.version, now)
                 else RejectedEntry(id, m.version, Ascii("cdn publish failed"), now)])
    {
      if !cdnOk {
        status := Reject(id, scope, m.version, BAD_GATEWAY, Ascii("cdn publish failed"), now);
        return;
      }
      shipped := shipped + [m];
      var entry := AuditEntry(ZERO_TIME, id.subject, [], ActionAccepted(), m.version, Ascii("allowed"), []);
      var recorded := store.AppendAudit(scope, entry, now);
      if recorded.Err? {
        return INTERNAL_ERROR;
      }
      return ACCEPTED_STATUS;
    }

    lemma AlwaysForward()
      requires Valid()
      ensures forall org :: Increasing(Rollouts(store.audit, org))
    {
      forall org
        ensures Increasing(Rollouts(store.audit, org))
      {
        NoOverlapForward(cfg, world, org);
      }
    }
  }
}
