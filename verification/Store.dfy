/** The in-memory store as a class: rows, indexes, ledgers and append-only logs that its operations
    change in place. Each operation is proved to do exactly what the model says. Rows are held by
    position, so that the chains and the id index share them. */
module Store {
  import opened Text
  import opened Records
  import opened StoreModel
  import opened JudgmentModel
  import opened RevisionChains
  import opened StoreIndexes
  import opened RuleLinks
  import ReviewQueue
  import Lists
  import StableSort

  class InMemoryMemoryStore {
    const p: Primitives

    var memories: seq<Memory>
    var chains: map<string, seq<nat>>
    var byId: map<string, nat>
    var relationRecords: seq<Relation>
    var statusTransitions: seq<Transition>
    var approvalEventRecords: seq<DecisionEvent>
    var decisionEventRecords: seq<DecisionEvent>
    var receiptRecords: seq<SignedReceipt>
    ghost var payloads: seq<ReceiptPayload>
    var idempotency: map<string, Reservation>
    var reviewIdempotency: map<string, Reservation>
    var judgments: seq<Judgment>
    var judgmentsById: map<string, nat>
    var judgmentEventRecords: seq<JudgmentEvent>
    var judgmentRelations: seq<Relation>
    var judgmentIdempotency: map<string, JudgmentReservation>

    /** The store as a value. */
    ghost function Snapshot(): State
      reads this
    {
      State(memories, relationRecords, statusTransitions, approvalEventRecords, decisionEventRecords,
            receiptRecords, payloads, idempotency, reviewIdempotency, judgments, judgmentEventRecords,
            judgmentRelations, judgmentIdempotency)
    }

    /** The indexes locate exactly the stored rows, and no reservation is left incomplete. */
    ghost predicate Valid()
      reads this
    {
      && IndexesOk(p, memories, chains, byId)
      && RestOk(judgments, judgmentsById, idempotency, reviewIdempotency, judgmentIdempotency)
    }

    constructor (primitives: Primitives)
      ensures Valid() && p == primitives && Snapshot() == EMPTY
    {
      p := primitives;
      memories, chains, byId := [], map[], map[];
      relationRecords, statusTransitions := [], [];
      approvalEventRecords, decisionEventRecords := [], [];
      receiptRecords, payloads := [], [];
      idempotency, reviewIdempotency := map[], map[];
      judgments, judgmentsById := [], map[];
      judgmentEventRecords, judgmentRelations, judgmentIdempotency := [], [], map[];
    }

    // ---------------------------------------------------------------- receipts

    method FindLatestReceiptHash(subjectType: string, subjectId: string) returns (hash: string)
      ensures hash == LatestReceiptHash(p, receiptRecords, subjectType, subjectId)
    {
      var i := |receiptRecords|;
      assert receiptRecords[..i] == receiptRecords;
      while i > 0
        invariant 0 <= i <= |receiptRecords|
        invariant LatestReceiptHash(p, receiptRecords, subjectType, subjectId) ==
                  LatestReceiptHash(p, receiptRecords[..i], subjectType, subjectId)
      {
        i := i - 1;
        var receipt := receiptRecords[i];
        assert receiptRecords[..i + 1][..i] == receiptRecords[..i];
        if receipt.subjectType == subjectType && receipt.subjectId == subjectId {
          return p.receiptHash(receipt);
        }
      }
      hash := "";
    }

    method EmitReceipt(payload: ReceiptPayload)
      modifies `receiptRecords, `payloads
      ensures Snapshot() == Emit(p, old(Snapshot()), payload)
      ensures unchanged(`memories, `chains, `byId)
      ensures unchanged(`judgments, `judgmentsById, `idempotency, `reviewIdempotency, `judgmentIdempotency)
    {
      if !p.signing {
        return;
      }
      var previous := FindLatestReceiptHash(payload.subjectType, payload.subjectId);
      receiptRecords := receiptRecords + [Sign(p, payload, previous)];
      payloads := payloads + [payload];
    }

    // -------------------------------------------------------------------- save

    method Save(input: SaveInput, id: string, now: string) returns (out: Result<Memory>)
      requires Valid() && id != "" && FindMemory(memories, id) < 0
      modifies `memories, `chains, `byId, `relationRecords, `receiptRecords, `payloads
      ensures Valid()
      ensures (Snapshot(), out) == SaveStep(p, old(Snapshot()), input, id, now)
      ensures out.Err? ==> Snapshot() == old(Snapshot())
    {
      if Blank(input.topicKey) || Blank(input.title) || !input.fieldsValid {
        return Err(InvalidInput);
      }
      var pins := AssertValidRuleLinks(p.parses, input.ruleLinks);
      if pins.Refused? {
        return Err(RuleLinkRefused(pins.error));
      }
      var refusal := CheckTargets(pins.links, EffectiveAt(input, now), TenantOf(input.scope));
      if refusal.Some? {
        return Err(RuleLinkRefused(refusal.value));
      }
      if !input.rowValid {
        return Err(InvalidInput);
      }
      IndexFinds(memories, byId, id);
      var m := NextRevision(input, id, now);
      Commit(p.chainKey(input.topicKey, input.scope), m);
      out := Ok(m);
    }

    /** The loop over the rule links of a save: each target exists, is the rule it claims to be, and is visible. */
    method CheckTargets(links: seq<PinnedRule>, effectiveAt: string, tenant: string) returns (refusal: Option<LinkError>)
      requires IndexesOk(p, memories, chains, byId)
      ensures refusal == FirstTargetRefusal(memories, links, effectiveAt, tenant)
    {
      for i := 0 to |links|
        invariant FirstTargetRefusal(memories, links, effectiveAt, tenant) ==
                  FirstTargetRefusal(memories, links[i..], effectiveAt, tenant)
      {
        var l := links[i];
        assert links[i..][1..] == links[i + 1..];
        IndexFinds(memories, byId, l.version);
        if l.effectiveAt != effectiveAt {
          return Some(EffectiveAtMismatch);
        }
        if l.version !in byId {
          return Some(TargetNotFound);
        }
        var target := memories[byId[l.version]];
        if target.kind != "rule" {
          return Some(TargetNotARule);
        }
        if target.topicKey != l.ref {
          return Some(TargetTopicMismatch);
        }
        if TenantOf(target.scope) != tenant {
          return Some(TargetTenantMismatch);
        }
      }
      refusal := None;
    }

    method NextRevision(input: SaveInput, id: string, now: string) returns (m: Memory)
      requires Valid()
      ensures m == RevisionFor(p, Snapshot(), input, id, now)
    {
      var latest := LatestOfChain(p.chainKey(input.topicKey, input.scope));
      m := NewRevision(p, input, id, now, if latest < 0 then 1 else memories[latest].revision + 1);
    }

    /** The last position of a chain, -1 when it is empty. */
    method LatestOfChain(key: string) returns (at: int)
      requires Valid()
      ensures at == LatestAt(p, memories, key)
    {
      var chain := ChainAt(chains, key);
      assert chain == Positions(p, memories, key);
      at := if chain == [] then -1 else chain[|chain| - 1];
    }

    /** The critical section of a save: the rows change, then the receipts follow. */
    method Commit(key: string, m: Memory)
      requires Valid() && key == KeyOf(p, m) && m.id != "" && m.id !in byId
      modifies `memories, `chains, `byId, `relationRecords, `receiptRecords, `payloads
      ensures Valid()
      ensures Snapshot() == SaveState(p, old(Snapshot()), m)
    {
      var latest := LatestOfChain(key);
      if latest >= 0 && CanVoid(memories[latest].status) {
        var prior := memories[latest];
        StoreOver(key, m, latest);
        EmitSupersession(prior, m);
      } else {
        AppendRow(key, m);
        EmitReceipt(RecordedPayload(p, m));
      }
    }

    /** The new row enters and the chain's current row gives way to it. */
    method StoreOver(key: string, m: Memory, latest: nat)
      requires Valid() && key == KeyOf(p, m) && m.id != "" && m.id !in byId
      requires latest == LatestAt(p, memories, key) && CanVoid(memories[latest].status)
      modifies `memories, `relationRecords, `chains, `byId
      ensures Valid()
      ensures Snapshot() == StoredState(p, old(Snapshot()), m)
    {
      ghost var before := Snapshot();
      GiveWay(latest, m);
      AppendRow(key, m);
      SupersedingSave(p, before, m, latest);
    }

    method EmitSupersession(prior: Memory, m: Memory)
      modifies `receiptRecords, `payloads
      ensures Snapshot() == SignSuperseding(p, old(Snapshot()), prior, m)
      ensures unchanged(`memories, `chains, `byId)
      ensures unchanged(`judgments, `judgmentsById, `idempotency, `reviewIdempotency, `judgmentIdempotency)
    {
      EmitReceipt(SupersededPayload(p, prior, Replacing(prior, m), m));
      EmitReceipt(RecordedPayload(p, m));
    }

    /** The chain's current row gives way to m. */
    method GiveWay(at: nat, m: Memory)
      requires Valid() && at < |memories|
      modifies `memories, `relationRecords
      ensures Valid()
      ensures Snapshot() == old(Snapshot()).(
                memories := old(memories)[at := Replacing(old(memories)[at], m)],
                relations := old(relationRecords) + [SupersedeRelation(old(memories)[at], m)])
    {
      relationRecords := relationRecords + [SupersedeRelation(memories[at], m)];
      RewriteRow(at, memories[at].(status := Superseded, supersedesId := m.id));
    }

    /** Overwrites a row in place; its id, topic and scope stay. */
    method RewriteRow(at: nat, m: Memory)
      requires IndexesOk(p, memories, chains, byId) && at < |memories| && SameIdentity(memories[at], m)
      modifies `memories
      ensures IndexesOk(p, memories, chains, byId)
      ensures memories == old(memories)[at := m]
    {
      RewriteKeepsIndexes(p, memories, chains, byId, at, m);
      memories := memories[at := m];
    }

    /** The new row enters its chain, the rows and the id index. */
    method AppendRow(key: string, m: Memory)
      requires Valid() && key == KeyOf(p, m) && m.id != "" && m.id !in byId
      modifies `memories, `chains, `byId
      ensures Valid()
      ensures Snapshot() == old(Snapshot()).(memories := old(memories) + [m])
    {
      AppendKeepsIndexes(p, memories, chains, byId, m);
      chains := chains[key := ChainAt(chains, key) + [|memories|]];
      byId := byId[m.id := |memories|];
      memories := memories + [m];
    }

    // ---------------------------------------------------------- status and links

    method ApplyStatusTransition(memoryId: string, to: Status, actor: string, actorKind: ActorKind, timestamp: string)
        returns (out: Result<Memory>)
      requires Valid()
      modifies `memories, `statusTransitions, `receiptRecords, `payloads
      ensures Valid()
      ensures (Snapshot(), out) == TransitionStep(p, old(Snapshot()), memoryId, to, actor, actorKind, timestamp)
      ensures out.Err? ==> Snapshot() == old(Snapshot())
    {
      IndexFinds(memories, byId, memoryId);
      if memoryId !in byId {
        return Err(MemoryNotFound);
      }
      out := MoveAndSign(byId[memoryId], to, actor, actorKind, timestamp);
    }

    method MoveAndSign(at: nat, to: Status, actor: string, actorKind: ActorKind, timestamp: string) returns (out: Result<Memory>)
      requires IndexesOk(p, memories, chains, byId) && at < |memories|
      modifies `memories, `statusTransitions, `receiptRecords, `payloads
      ensures IndexesOk(p, memories, chains, byId)
      ensures (Snapshot(), out) == MoveStep(p, old(Snapshot()), at, to, actor, actorKind, timestamp)
      ensures out.Ok?
      ensures unchanged(`judgments, `judgmentsById, `idempotency, `reviewIdempotency, `judgmentIdempotency)
    {
      var before := memories[at];
      var moved := MoveRow(at, to, actor, actorKind, timestamp);
      if to == Rejected || to == Voided {
        EmitReceipt(TransitionPayload(p, before, moved, actor, timestamp));
      }
      out := Ok(moved);
    }

    /** Flips the status of a row, refreshes its cached envelope and logs the move. */
    method MoveRow(at: nat, to: Status, actor: string, actorKind: ActorKind, timestamp: string) returns (moved: Memory)
      requires IndexesOk(p, memories, chains, byId) && at < |memories|
      modifies `memories, `statusTransitions
      ensures IndexesOk(p, memories, chains, byId)
      ensures moved == WithStatus(p, old(memories)[at], to)
      ensures Snapshot() == LoggedMove(p, old(Snapshot()), at, to, actor, actorKind, timestamp)
    {
      var before := memories[at];
      moved := before.(status := to);
      moved := moved.(envelopeHash := Envelope(p, moved));
      RewriteRow(at, moved);
      statusTransitions := statusTransitions + [Transition(before.id, before.status, to, actor, actorKind, timestamp)];
    }

    /** The guarded way in: applyGateTransition reads the row and checks the move before delegating. */
    method ApplyGateTransition(memoryId: string, to: Status, actor: string, actorKind: ActorKind, timestamp: string)
        returns (out: Result<Memory>)
      requires Valid()
      modifies `memories, `statusTransitions, `receiptRecords, `payloads
      ensures Valid()
      ensures (Snapshot(), out) == GateStep(p, old(Snapshot()), memoryId, to, actor, actorKind, timestamp)
      ensures out.Err? ==> Snapshot() == old(Snapshot())
    {
      IndexFinds(memories, byId, memoryId);
      if memoryId !in byId {
        return Err(MemoryNotFound);
      }
      if !GateAllows(memories[byId[memoryId]].status, to, actorKind) {
        return Err(GateRefused);
      }
      out := ApplyStatusTransition(memoryId, to, actor, actorKind, timestamp);
    }

    method AddLink(kind: LinkKind, memoryId: string, ref: string, actor: string, now: string) returns (out: Result<()>)
      requires Valid()
      modifies `memories, `receiptRecords, `payloads
      ensures Valid()
      ensures (Snapshot(), out) == LinkStep(p, old(Snapshot()), kind, memoryId, ref, actor, now)
      ensures out.Err? ==> Snapshot() == old(Snapshot())
    {
      if Blank(ref) {
        return Err(InvalidRef);
      }
      IndexFinds(memories, byId, memoryId);
      if memoryId !in byId {
        return Err(MemoryNotFound);
      }
      var at := byId[memoryId];
      var before := memories[at];
      var refs := if kind.EvidenceLink? then before.evidenceRefs else before.ruleRefs;
      if ref in refs {
        return Ok(());
      }
      var grown := if kind.EvidenceLink? then before.(evidenceRefs := refs + [ref]) else before.(ruleRefs := refs + [ref]);
      grown := grown.(envelopeHash := Envelope(p, grown));
      RewriteRow(at, grown);
      if kind.EvidenceLink? {
        EmitReceipt(LinkedPayload(p, before, grown, ref, actor, now));
      }
      out := Ok(());
    }

    // --------------------------------------------------------------- decisions

    /** The checks that approvals and review decisions share, and the row's position. */
    method CheckScope(memoryId: string, who: Principal) returns (r: Result<nat>)
      requires IndexesOk(p, memories, chains, byId)
      ensures r == ScopeCheck(Snapshot(), memoryId, who)
    {
      IndexFinds(memories, byId, memoryId);
      if memoryId !in byId {
        return Err(MemoryNotFound);
      }
      var at := byId[memoryId];
      var scope := memories[at].scope;
      if !scope.Company? {
        return Err(CompanyScopeDenied);
      }
      if who.tenantId != scope.organizationId {
        return Err(TenantScopeMismatch);
      }
      if scope.companyId !in who.companyScopes {
        return Err(CompanyScopeDenied);
      }
      r := Ok(at);
    }

    method CheckApproval(c: ApproveCommand, who: Principal, policy: ApprovalPolicy) returns (r: Result<(nat, string)>)
      requires IndexesOk(p, memories, chains, byId)
      ensures r == ApprovalCheck(p, Snapshot(), c, who, policy)
    {
      var found := CheckScope(c.memoryId, who);
      if found.Err? {
        return Err(found.code);
      }
      var m := memories[found.value];
      if m.status == Approved || m.status == Rejected {
        return Err(AlreadyDecided);
      }
      if m.status != PendingReview {
        return Err(InvalidTransition);
      }
      var h1 := Envelope(p, m);
      if p.normalize(c.expectedEnvelopeHash) != p.lower(h1) {
        return Err(EnvelopeMismatch);
      }
      var decision := policy(who, m);
      if !decision.allowed {
        return Err(PolicyDenied(decision.reasonCode));
      }
      var h2 := Envelope(p, m.(status := Approved));
      if h2 == h1 {
        return Err(InvalidTransition);
      }
      r := Ok((found.value, decision.policyVersion));
    }

    method CheckReview(c: ApproveCommand, who: Principal, d: Decision) returns (r: Result<nat>)
      requires IndexesOk(p, memories, chains, byId)
      ensures r == ReviewCheck(p, Snapshot(), c, who, d)
    {
      var found := CheckScope(c.memoryId, who);
      if found.Err? {
        return Err(found.code);
      }
      var m := memories[found.value];
      if m.status == Approved || m.status == Rejected || m.status == Returned {
        return Err(AlreadyDecided);
      }
      if m.status != PendingReview {
        return Err(InvalidTransition);
      }
      var h1 := Envelope(p, m);
      if p.normalize(c.expectedEnvelopeHash) != p.lower(h1) {
        return Err(EnvelopeMismatch);
      }
      if m.source.actorId != "" && m.source.actorId == who.subjectId {
        return Err(SodViolation);
      }
      if (d.Return? || RejectReasonRequired(m)) && Blank(c.reason) {
        return Err(ReasonRequired);
      }
      var h2 := Envelope(p, m.(status := StatusOf(d)));
      if h2 == h1 {
        return Err(InvalidTransition);
      }
      r := Ok(found.value);
    }

    /** The row, log and receipt side of a decision on a pending row. */
    method DecideRow(at: nat, to: Status, c: ApproveCommand, who: Principal, policyVersion: string, now: string)
        returns (decided: Memory)
      requires IndexesOk(p, memories, chains, byId) && at < |memories| && memories[at].status == PendingReview
      modifies `memories, `statusTransitions, `receiptRecords, `payloads
      ensures IndexesOk(p, memories, chains, byId)
      ensures decided == WithStatus(p, old(memories)[at], to)
      ensures Snapshot() == Decide(p, old(Snapshot()), at, to, c, who, policyVersion, now)
      ensures unchanged(`judgments, `judgmentsById, `idempotency, `reviewIdempotency, `judgmentIdempotency)
    {
      var before := memories[at];
      decided := MoveRow(at, to, who.subjectId, Human, now);
      EmitReceipt(DecidedPayload(p, c, who, before, decided, policyVersion, now));
    }

    method RecordApprovalEvent(c: ApproveCommand, who: Principal, event: DecisionEvent)
      requires CompletedBut(idempotency, LedgerKey(who.tenantId, c.requestId))
      modifies `approvalEventRecords, `idempotency
      ensures AllCompleted(idempotency)
      ensures unchanged(`memories, `chains, `byId, `judgments, `judgmentsById, `reviewIdempotency, `judgmentIdempotency)
      ensures Snapshot() == LogApproval(p, old(Snapshot()), c, who, event)
    {
      approvalEventRecords := approvalEventRecords + [event];
      idempotency := idempotency[LedgerKey(who.tenantId, c.requestId) :=
        Reservation(CommandHash(p, c), who.subjectId, who.membershipId, Some(ResultFor(event, who)))];
    }

    method RecordReviewEvent(c: ApproveCommand, who: Principal, event: DecisionEvent)
      requires CompletedBut(reviewIdempotency, LedgerKey(who.tenantId, c.requestId))
      modifies `decisionEventRecords, `reviewIdempotency
      ensures AllCompleted(reviewIdempotency)
      ensures unchanged(`memories, `chains, `byId, `judgments, `judgmentsById, `idempotency, `judgmentIdempotency)
      ensures Snapshot() == LogReview(p, old(Snapshot()), c, who, event)
    {
      decisionEventRecords := decisionEventRecords + [event];
      reviewIdempotency := reviewIdempotency[LedgerKey(who.tenantId, c.requestId) :=
        Reservation(CommandHash(p, c), who.subjectId, who.membershipId, Some(ResultFor(event, who)))];
    }

    method RecordApproval(at: nat, c: ApproveCommand, who: Principal, policyVersion: string, eventId: string, now: string)
        returns (out: Result<DecisionResult>)
      requires IndexesOk(p, memories, chains, byId) && at < |memories|
      requires memories[at].scope.Company? && memories[at].status == PendingReview
      requires CompletedBut(idempotency, LedgerKey(who.tenantId, c.requestId))
      modifies `memories, `statusTransitions, `receiptRecords, `payloads, `approvalEventRecords, `idempotency
      ensures IndexesOk(p, memories, chains, byId) && AllCompleted(idempotency)
      ensures unchanged(`judgments, `judgmentsById, `reviewIdempotency, `judgmentIdempotency)
      ensures (Snapshot(), out) == CommitApproval(p, old(Snapshot()), at, c, who, policyVersion, eventId, now)
    {
      var before := memories[at];
      var decided := DecideRow(at, Approved, c, who, policyVersion, now);
      var event := EventFor(p, c, who, before, decided, policyVersion, eventId, now);
      RecordApprovalEvent(c, who, event);
      out := Ok(ResultFor(event, who));
    }

    method RecordReview(at: nat, c: ApproveCommand, who: Principal, d: Decision, eventId: string, now: string)
        returns (out: Result<DecisionResult>)
      requires IndexesOk(p, memories, chains, byId) && at < |memories|
      requires memories[at].scope.Company? && memories[at].status == PendingReview
      requires CompletedBut(reviewIdempotency, LedgerKey(who.tenantId, c.requestId))
      modifies `memories, `statusTransitions, `receiptRecords, `payloads, `decisionEventRecords, `reviewIdempotency
      ensures IndexesOk(p, memories, chains, byId) && AllCompleted(reviewIdempotency)
      ensures unchanged(`judgments, `judgmentsById, `idempotency, `judgmentIdempotency)
      ensures (Snapshot(), out) == CommitReview(p, old(Snapshot()), at, c, who, d, eventId, now)
    {
      var before := memories[at];
      var decided := DecideRow(at, StatusOf(d), c, who, KERNEL_POLICY_VERSION, now);
      var event := EventFor(p, c, who, before, decided, KERNEL_POLICY_VERSION, eventId, now);
      RecordReviewEvent(c, who, event);
      out := Ok(ResultFor(event, who));
    }

    method ApproveMemory(c: ApproveCommand, who: Principal, policy: ApprovalPolicy, eventId: string, now: string)
        returns (out: Result<DecisionResult>)
      requires Valid()
      modifies `memories, `statusTransitions, `receiptRecords, `payloads, `approvalEventRecords, `idempotency
      ensures Valid()
      ensures (Snapshot(), out) == ApproveStep(p, old(Snapshot()), c, who, policy, eventId, now)
      ensures out.Err? ==> Snapshot() == old(Snapshot())
    {
      if Blank(c.reason) {
        return Err(ReasonRequired);
      }
      if Blank(c.memoryId) || Blank(c.expectedEnvelopeHash) || Blank(c.requestId) {
        return Err(MemoryNotFound);
      }
      var key, hash := LedgerKey(who.tenantId, c.requestId), CommandHash(p, c);
      if key in idempotency {
        var existing := idempotency[key];
        if existing.commandHash != hash || existing.principalSubjectId != who.subjectId || existing.membershipId != who.membershipId {
          return Err(IdempotencyConflict);
        }
        return Ok(existing.result.value.(idempotentReplay := true));
      }
      out := DecideApproval(key, hash, c, who, policy, eventId, now);
    }

    /** Reserves the request and runs the checks; a failed check rolls the reservation back. */
    method ReserveAndCheckApproval(key: string, hash: string, c: ApproveCommand, who: Principal, policy: ApprovalPolicy)
        returns (check: Result<(nat, string)>)
      requires IndexesOk(p, memories, chains, byId)
      requires key == LedgerKey(who.tenantId, c.requestId) && key !in idempotency && hash == CommandHash(p, c)
      requires AllCompleted(idempotency)
      modifies `idempotency
      ensures CompletedBut(idempotency, key)
      ensures check == ApprovalCheck(p, old(Snapshot()), c, who, policy)
      ensures check.Err? ==> Snapshot() == old(Snapshot())
      ensures check.Ok? ==> Snapshot() == ReserveApproval(p, old(Snapshot()), c, who)
    {
      hide ApprovalCheck, IndexesOk, CommandHash, LedgerKey;
      ghost var before := Snapshot();
      var reservation := Reservation(hash, who.subjectId, who.membershipId, None);
      idempotency := idempotency[key := reservation];
      ApprovalCheckReadsRows(p, before, Snapshot(), c, who, policy);
      check := CheckApproval(c, who, policy);
      if check.Err? {
        idempotency := idempotency - {key};
        assert idempotency == before.approvalLedger;
      }
    }

    method DecideApproval(key: string, hash: string, c: ApproveCommand, who: Principal, policy: ApprovalPolicy,
                          eventId: string, now: string) returns (out: Result<DecisionResult>)
      requires Valid() && key == LedgerKey(who.tenantId, c.requestId) && key !in idempotency && hash == CommandHash(p, c)
      modifies `memories, `statusTransitions, `receiptRecords, `payloads, `approvalEventRecords, `idempotency
      ensures Valid()
      ensures
        var check := ApprovalCheck(p, old(Snapshot()), c, who, policy);
        if check.Err? then Snapshot() == old(Snapshot()) && out == Err(check.code)
        else (Snapshot(), out) == CommitApproval(p, old(Snapshot()), check.value.0, c, who, check.value.1, eventId, now)
    {
      ghost var before := Snapshot();
      var check := ReserveAndCheckApproval(key, hash, c, who, policy);
      if check.Err? {
        return Err(check.code);
      }
      out := CompleteApproval(before, check.value.0, c, who, check.value.1, eventId, now);
    }

    method CompleteApproval(ghost before: State, at: nat, c: ApproveCommand, who: Principal, policyVersion: string,
                            eventId: string, now: string) returns (out: Result<DecisionResult>)
      requires IndexesOk(p, memories, chains, byId) && at < |memories|
      requires memories[at].scope.Company? && memories[at].status == PendingReview
      requires CompletedBut(idempotency, LedgerKey(who.tenantId, c.requestId))
      requires Snapshot() == ReserveApproval(p, before, c, who)
      modifies `memories, `statusTransitions, `receiptRecords, `payloads, `approvalEventRecords, `idempotency
      ensures IndexesOk(p, memories, chains, byId) && AllCompleted(idempotency)
      ensures (Snapshot(), out) == CommitApproval(p, before, at, c, who, policyVersion, eventId, now)
      ensures unchanged(`judgments, `judgmentsById, `reviewIdempotency, `judgmentIdempotency)
    {
      ApprovalOverwrites(p, before, at, c, who, policyVersion, eventId, now);
      out := RecordApproval(at, c, who, policyVersion, eventId, now);
    }

    /** rejectMemory and returnMemory: the shared core, under the status of the caller. */
    method DecidePendingMemory(c: ApproveCommand, who: Principal, d: Decision, eventId: string, now: string)
        returns (out: Result<DecisionResult>)
      requires Valid()
      modifies `memories, `statusTransitions, `receiptRecords, `payloads, `decisionEventRecords, `reviewIdempotency
      ensures Valid()
      ensures (Snapshot(), out) == ReviewStep(p, old(Snapshot()), c, who, d, eventId, now)
      ensures out.Err? ==> Snapshot() == old(Snapshot())
    {
      if Blank(c.memoryId) || Blank(c.expectedEnvelopeHash) || Blank(c.requestId) {
        return Err(MemoryNotFound);
      }
      var key, hash := LedgerKey(who.tenantId, c.requestId), CommandHash(p, c);
      if key in reviewIdempotency {
        var existing := reviewIdempotency[key];
        if existing.commandHash != hash || existing.principalSubjectId != who.subjectId || existing.membershipId != who.membershipId {
          return Err(IdempotencyConflict);
        }
        return Ok(existing.result.value.(currentStatus := StatusOf(d), idempotentReplay := true));
      }
      out := DecideReview(key, hash, c, who, d, eventId, now);
    }

    method ReserveAndCheckReview(key: string, hash: string, c: ApproveCommand, who: Principal, d: Decision)
        returns (check: Result<nat>)
      requires IndexesOk(p, memories, chains, byId)
      requires key == LedgerKey(who.tenantId, c.requestId) && key !in reviewIdempotency && hash == CommandHash(p, c)
      requires AllCompleted(reviewIdempotency)
      modifies `reviewIdempotency
      ensures CompletedBut(reviewIdempotency, key)
      ensures check == ReviewCheck(p, old(Snapshot()), c, who, d)
      ensures check.Err? ==> Snapshot() == old(Snapshot())
      ensures check.Ok? ==> Snapshot() == ReserveReview(p, old(Snapshot()), c, who)
    {
      hide ReviewCheck, IndexesOk, CommandHash, LedgerKey;
      ghost var before := Snapshot();
      var reservation := Reservation(hash, who.subjectId, who.membershipId, None);
      reviewIdempotency := reviewIdempotency[key := reservation];
      ReviewCheckReadsRows(p, before, Snapshot(), c, who, d);
      check := CheckReview(c, who, d);
      if check.Err? {
        reviewIdempotency := reviewIdempotency - {key};
        assert reviewIdempotency == before.reviewLedger;
      }
    }

    method DecideReview(key: string, hash: string, c: ApproveCommand, who: Principal, d: Decision,
                        eventId: string, now: string) returns (out: Result<DecisionResult>)
      requires Valid() && key == LedgerKey(who.tenantId, c.requestId) && key !in reviewIdempotency && hash == CommandHash(p, c)
      modifies `memories, `statusTransitions, `receiptRecords, `payloads, `decisionEventRecords, `reviewIdempotency
      ensures Valid()
      ensures
        var check := ReviewCheck(p, old(Snapshot()), c, who, d);
        if check.Err? then Snapshot() == old(Snapshot()) && out == Err(check.code)
        else (Snapshot(), out) == CommitReview(p, old(Snapshot()), check.value, c, who, d, eventId, now)
    {
      ghost var before := Snapshot();
      var check := ReserveAndCheckReview(key, hash, c, who, d);
      if check.Err? {
        return Err(check.code);
      }
      out := CompleteReview(before, check.value, c, who, d, eventId, now);
    }

    method CompleteReview(ghost before: State, at: nat, c: ApproveCommand, who: Principal, d: Decision,
                          eventId: string, now: string) returns (out: Result<DecisionResult>)
      requires IndexesOk(p, memories, chains, byId) && at < |memories|
      requires memories[at].scope.Company? && memories[at].status == PendingReview
      requires CompletedBut(reviewIdempotency, LedgerKey(who.tenantId, c.requestId))
      requires Snapshot() == ReserveReview(p, before, c, who)
      modifies `memories, `statusTransitions, `receiptRecords, `payloads, `decisionEventRecords, `reviewIdempotency
      ensures IndexesOk(p, memories, chains, byId) && AllCompleted(reviewIdempotency)
      ensures (Snapshot(), out) == CommitReview(p, before, at, c, who, d, eventId, now)
      ensures unchanged(`judgments, `judgmentsById, `idempotency, `judgmentIdempotency)
    {
      ReviewOverwrites(p, before, at, c, who, d, eventId, now);
      out := RecordReview(at, c, who, d, eventId, now);
    }

    // ------------------------------------------------------------ review queue

    /** `listReviewQueue`. The rows of the id map stand in insertion order, as the rows do. */
    method ListReviewQueue(q: ReviewQueue.QueueQuery) returns (page: ReviewQueue.QueuePage)
      ensures ReviewQueue.PageShows(p, memories, judgments, q, page)
    {
      var limit := ReviewQueue.PageLimit(q.limit);
      var offset := if q.offset.Some? then q.offset.value else 0;
      var matching := Lists.Filter(memories, ReviewQueue.PendingIn(q.scope));
      matching := StableSort.StableSorted(matching, ReviewQueue.QueueKey());
      var items := Lists.Mapped(ReviewQueue.Slice(matching, offset, offset + limit), ReviewQueue.ItemOf(p, judgments));
      page := ReviewQueue.QueuePage(items, limit, offset);
      ReviewQueue.PageIsShown(p, memories, judgments, q);
    }

    // --------------------------------------------------------------- judgments

    /** The first open proposal of a tuple, in insertion order. */
    method OpenJudgmentForTuple(t: Tuple) returns (at: int)
      ensures at == OpenAt(judgments, t)
    {
      for i := 0 to |judgments|
        invariant forall k | 0 <= k < i :: !OpenFor(judgments[k], t)
      {
        var j := judgments[i];
        if j.tenantId == t.tenantId && j.companyId == t.companyId && j.fromId == t.fromId && j.toId == t.toId &&
           j.relation == t.relation && j.status == Proposed {
          return i;
        }
      }
      at := -1;
    }

    method RewriteJudgment(at: nat, j: Judgment)
      requires JudgmentIndexOk(judgments, judgmentsById) && at < |judgments| && j.id == judgments[at].id
      modifies `judgments
      ensures JudgmentIndexOk(judgments, judgmentsById)
      ensures Snapshot() == old(Snapshot()).(judgments := old(judgments)[at := j])
    {
      RewriteKeepsJudgmentIndex(judgments, judgmentsById, at, j);
      judgments := judgments[at := j];
    }

    method AppendJudgment(j: Judgment)
      requires JudgmentIndexOk(judgments, judgmentsById) && j.id !in judgmentsById
      modifies `judgments, `judgmentsById
      ensures JudgmentIndexOk(judgments, judgmentsById)
      ensures Snapshot() == old(Snapshot()).(judgments := old(judgments) + [j])
    {
      AppendKeepsJudgmentIndex(judgments, judgmentsById, j);
      judgmentsById := judgmentsById[j.id := |judgments|];
      judgments := judgments + [j];
    }

    method CheckProposalScope(c: ProposeCommand, caller: Source) returns (r: Result<(Tuple, string)>)
      requires IndexesOk(p, memories, chains, byId)
      ensures r == ProposalScope(Snapshot(), c, caller)
    {
      if Blank(c.fromId) || Blank(c.toId) || Blank(c.reason) || Blank(c.requestId) {
        return Err(MemoryNotFound);
      }
      if !IsProposable(c.relation) {
        return Err(RelationNotProposable);
      }
      if !CanPropose(caller) {
        return Err(ProposalUnauthorized);
      }
      if c.fromId == c.toId {
        return Err(MemoryNotFound);
      }
      IndexFinds(memories, byId, c.fromId);
      IndexFinds(memories, byId, c.toId);
      if c.fromId !in byId || c.toId !in byId {
        return Err(MemoryNotFound);
      }
      var from, to := memories[byId[c.fromId]].scope, memories[byId[c.toId]].scope;
      if !from.Company? || !to.Company? {
        return Err(CompanyScopeDenied);
      }
      if from.organizationId != to.organizationId {
        return Err(TenantScopeMismatch);
      }
      if from.companyId != to.companyId {
        return Err(CompanyScopeDenied);
      }
      var period := if from.period != "" && from.period == to.period then from.period else "";
      r := Ok((Tuple(from.organizationId, from.companyId, c.fromId, c.toId, c.relation), period));
    }

    method CheckPredecessor(c: ProposeCommand, caller: Source) returns (r: Result<string>)
      requires JudgmentIndexOk(judgments, judgmentsById)
      ensures r == PredecessorCheck(p, Snapshot(), c, caller)
    {
      if c.predecessorId == "" {
        return Ok("");
      }
      JudgmentIndexFinds(judgments, judgmentsById, c.predecessorId);
      if c.predecessorId !in judgmentsById {
        return Err(JudgmentNotFound);
      }
      var pred := judgments[judgmentsById[c.predecessorId]];
      if pred.fromId != c.fromId || pred.toId != c.toId || pred.relation != c.relation {
        return Err(JudgmentConflict);
      }
      match pred.status
      case Confirmed => return Ok("");
      case Proposed =>
        if p.proposerBinding(pred.proposer) != p.proposerBinding(caller) {
          return Err(ProposalUnauthorized);
        }
        return Ok(pred.id);
      case _ => return Err(InvalidJudgmentTransition);
    }

    method CheckProposal(c: ProposeCommand, caller: Source, tuple: Tuple) returns (r: Result<string>)
      requires JudgmentIndexOk(judgments, judgmentsById)
      ensures r == ProposalCheck(p, Snapshot(), c, caller, tuple)
    {
      r := CheckPredecessor(c, caller);
      if r.Err? {
        return;
      }
      var open := OpenJudgmentForTuple(tuple);
      if open >= 0 && judgments[open].id != r.value {
        r := Err(JudgmentConflict);
      }
    }

    /** Reserves the request and runs the checks; a failed check rolls the reservation back. */
    method ReserveAndCheckProposal(key: string, c: ProposeCommand, caller: Source, tuple: Tuple, id: string)
        returns (r: Result<string>)
      requires JudgmentIndexOk(judgments, judgmentsById) && key !in judgmentIdempotency
      modifies `judgmentIdempotency
      ensures r == ProposalCheck(p, old(Snapshot()), c, caller, tuple)
      ensures r.Err? ==> judgmentIdempotency == old(judgmentIdempotency)
      ensures r.Ok? ==> judgmentIdempotency == old(judgmentIdempotency)[key :=
                          JudgmentReservation(ProposeHash(p, c), p.proposerBinding(caller), id, None, false)]
    {
      ghost var before := Snapshot();
      judgmentIdempotency := judgmentIdempotency[key :=
        JudgmentReservation(ProposeHash(p, c), p.proposerBinding(caller), id, None, false)];
      ProposalCheckReadsRows(p, before, Snapshot(), c, caller, tuple);
      r := CheckProposal(c, caller, tuple);
      if r.Err? {
        judgmentIdempotency := judgmentIdempotency - {key};
        assert judgmentIdempotency == before.judgmentLedger;
      }
    }

    method RecordProposal(c: ProposeCommand, caller: Source, j: Judgment, replaced: string, now: string)
        returns (out: Result<JudgmentAnswer>)
      requires JudgmentIndexOk(judgments, judgmentsById) && j.id !in judgmentsById
      requires replaced != "" ==> replaced in judgmentsById
      modifies `judgments, `judgmentsById, `judgmentRelations, `judgmentIdempotency
      ensures JudgmentIndexOk(judgments, judgmentsById)
      ensures (Snapshot(), out) == CommitProposal(p, old(Snapshot()), c, caller, j, replaced, now)
    {
      if replaced != "" {
        JudgmentIndexFinds(judgments, judgmentsById, replaced);
        var at := judgmentsById[replaced];
        RewriteJudgment(at, judgments[at].(status := Replaced, supersedesId := j.id, decidedAt := now, updatedAt := now));
        judgmentRelations := judgmentRelations + [Relation(replaced, j.id, Supersedes, p.proposerBinding(caller), now)];
      }
      AppendJudgment(j);
      judgmentIdempotency := judgmentIdempotency[LedgerKey(j.tenantId, c.requestId) :=
        JudgmentReservation(ProposeHash(p, c), p.proposerBinding(caller), j.id, None, true)];
      out := Ok(JudgmentAnswer(j, None, false));
    }

    method ProposeJudgment(c: ProposeCommand, caller: Source, id: string, now: string) returns (out: Result<JudgmentAnswer>)
      requires Valid() && FindJudgment(judgments, id) < 0
      modifies `judgments, `judgmentsById, `judgmentRelations, `judgmentIdempotency
      ensures Valid()
      ensures (Snapshot(), out) == ProposeStep(p, old(Snapshot()), c, caller, id, now)
      ensures out.Err? ==> Snapshot() == old(Snapshot())
    {
      var scope := CheckProposalScope(c, caller);
      if scope.Err? {
        return Err(scope.code);
      }
      var key := LedgerKey(scope.value.0.tenantId, c.requestId);
      if key in judgmentIdempotency {
        out := ReplayProposal(judgmentIdempotency[key], c, caller, scope.value.0);
      } else {
        out := DecideProposal(key, c, caller, scope.value.0, NewJudgment(scope.value.0, scope.value.1, c, caller, id, now), now);
      }
    }

    method ReplayProposal(existing: JudgmentReservation, c: ProposeCommand, caller: Source, tuple: Tuple)
        returns (out: Result<JudgmentAnswer>)
      requires JudgmentIndexOk(judgments, judgmentsById)
      ensures out == if BoundTo(existing, ProposeHash(p, c), p.proposerBinding(caller))
                     then ReplayedProposal(Snapshot(), existing, tuple) else Err(IdempotencyConflict)
    {
      if existing.commandHash != ProposeHash(p, c) || existing.binding != p.proposerBinding(caller) {
        return Err(IdempotencyConflict);
      }
      JudgmentIndexFinds(judgments, judgmentsById, existing.judgmentId);
      if existing.judgmentId in judgmentsById {
        return Ok(JudgmentAnswer(judgments[judgmentsById[existing.judgmentId]], None, true));
      }
      var open := OpenJudgmentForTuple(tuple);
      if open >= 0 {
        return Ok(JudgmentAnswer(judgments[open], None, true));
      }
      out := Err(JudgmentNotFound);
    }

    method DecideProposal(key: string, c: ProposeCommand, caller: Source, tuple: Tuple, j: Judgment, now: string)
        returns (out: Result<JudgmentAnswer>)
      requires JudgmentIndexOk(judgments, judgmentsById) && AllJudgmentsCompleted(judgmentIdempotency)
      requires FindJudgment(judgments, j.id) < 0 && key == LedgerKey(j.tenantId, c.requestId) && key !in judgmentIdempotency
      modifies `judgments, `judgmentsById, `judgmentRelations, `judgmentIdempotency
      ensures JudgmentIndexOk(judgments, judgmentsById) && AllJudgmentsCompleted(judgmentIdempotency)
      ensures unchanged(`memories, `chains, `byId, `idempotency, `reviewIdempotency)
      ensures
        var check := ProposalCheck(p, old(Snapshot()), c, caller, tuple);
        if check.Err? then Snapshot() == old(Snapshot()) && out == Err(check.code)
        else (Snapshot(), out) == CommitProposal(p, old(Snapshot()), c, caller, j, check.value, now)
    {
      ghost var before := Snapshot();
      var check := ReserveAndCheckProposal(key, c, caller, tuple, j.id);
      if check.Err? {
        return Err(check.code);
      }
      JudgmentIndexFinds(judgments, judgmentsById, j.id);
      JudgmentIndexFinds(judgments, judgmentsById, check.value);
      ProposalOverwrites(p, before, c, caller, j, check.value, now);
      out := RecordProposal(c, caller, j, check.value, now);
    }

    /** The confirmed predecessor that a confirmation supersedes, -1 when there is none. */
    method CheckSupersession(j: Judgment) returns (r: Result<int>)
      requires JudgmentIndexOk(judgments, judgmentsById)
      ensures r == SupersedeCheck(Snapshot(), j)
    {
      if j.predecessorId == "" {
        return Ok(-1);
      }
      JudgmentIndexFinds(judgments, judgmentsById, j.predecessorId);
      if j.predecessorId !in judgmentsById {
        return Err(JudgmentNotFound);
      }
      var pred := judgments[judgmentsById[j.predecessorId]];
      match pred.status
      case Confirmed => return Ok(judgmentsById[j.predecessorId]);
      case Replaced =>
        if pred.supersedesId != j.id {
          return Err(InvalidJudgmentTransition);
        }
        return Ok(-1);
      case _ => return Err(InvalidJudgmentTransition);
    }

    method CheckAdjudication(v: Verdict, c: AdjudicateCommand, who: Principal, policy: JudgmentPolicy)
        returns (r: Result<(nat, string, int)>)
      requires JudgmentIndexOk(judgments, judgmentsById)
      ensures r == AdjudicationCheck(p, Snapshot(), v, c, who, policy)
    {
      JudgmentIndexFinds(judgments, judgmentsById, c.judgmentId);
      if c.judgmentId !in judgmentsById {
        return Err(JudgmentNotFound);
      }
      var at := judgmentsById[c.judgmentId];
      var j := judgments[at];
      if j.status != Proposed {
        return Err(InvalidJudgmentTransition);
      }
      if p.normalize(c.expectedJudgmentHash) != p.lower(p.judgmentHash(j)) {
        return Err(JudgmentHashMismatch);
      }
      var decision := policy(who, j);
      if !decision.allowed {
        return Err(PolicyDenied(decision.reasonCode));
      }
      if v.Decline? {
        return Ok((at, decision.policyVersion, -1));
      }
      var pred := CheckSupersession(j);
      if pred.Err? {
        return Err(pred.code);
      }
      r := Ok((at, decision.policyVersion, pred.value));
    }

    /** Records an observation relation, once. */
    method Relate(r: Relation)
      modifies `relationRecords
      ensures Snapshot() == old(Snapshot()).(relations := WithRelation(old(relationRecords), r))
    {
      for i := 0 to |relationRecords|
        invariant forall k | 0 <= k < i ::
          !(relationRecords[k].fromId == r.fromId && relationRecords[k].toId == r.toId && relationRecords[k].relation == r.relation)
        invariant relationRecords == old(relationRecords)
      {
        if relationRecords[i].fromId == r.fromId && relationRecords[i].toId == r.toId && relationRecords[i].relation == r.relation {
          return;
        }
      }
      relationRecords := relationRecords + [r];
    }

    /** The decided row and its event. */
    method RecordDecision(at: nat, after: Judgment, event: JudgmentEvent)
      requires JudgmentIndexOk(judgments, judgmentsById) && at < |judgments| && after.id == judgments[at].id
      modifies `judgments, `judgmentEventRecords
      ensures JudgmentIndexOk(judgments, judgmentsById)
      ensures Snapshot() == old(Snapshot()).(
                judgments := old(judgments)[at := after],
                judgmentEvents := old(judgmentEventRecords) + [event])
    {
      judgmentEventRecords := judgmentEventRecords + [event];
      RewriteJudgment(at, after);
    }

    /** The confirmed predecessor gives way: row, event and judgment relation. */
    method SupersedeJudgment(pred: nat, next: Judgment, actor: string, requestId: string, eventId: string, now: string)
      requires JudgmentIndexOk(judgments, judgmentsById) && pred < |judgments|
      modifies `judgments, `judgmentEventRecords, `judgmentRelations
      ensures JudgmentIndexOk(judgments, judgmentsById)
      ensures Snapshot() == GivenWay(p, old(Snapshot()), pred, next, actor, requestId, eventId, now)
    {
      var was := judgments[pred];
      var replaced := was.(status := Replaced, supersedesId := next.id, updatedAt := now);
      judgmentEventRecords := judgmentEventRecords +
        [SupersessionRecord(p, replaced, next, requestId, eventId, now)];
      judgmentRelations := judgmentRelations + [Relation(was.id, next.id, Supersedes, actor, now)];
      RewriteJudgment(pred, replaced);
    }

    method ApplyVerdict(v: Verdict, at: nat, after: Judgment, pred: int, who: Principal, requestId: string,
                        eventId: string, supersedeEventId: string, now: string)
      requires JudgmentIndexOk(judgments, judgmentsById) && at < |judgments| && -1 <= pred < |judgments| && pred != at
      requires after.id == judgments[at].id
      modifies `judgments, `judgmentEventRecords, `judgmentRelations, `relationRecords
      ensures JudgmentIndexOk(judgments, judgmentsById)
      ensures Snapshot() == VerdictState(p, old(Snapshot()), v, at, after, pred, who, requestId, eventId, supersedeEventId, now)
    {
      var before := judgments[at];
      VerdictInSteps(p, Snapshot(), v, at, after, pred, who, requestId, eventId, supersedeEventId, now);
      RecordDecision(at, after, DecisionRecord(p, before, after, requestId, eventId, now));
      if v.Confirm? {
        Relate(Relation(before.fromId, before.toId, before.relation, who.subjectId, now));
      }
      if pred >= 0 {
        SupersedeJudgment(pred, after, who.subjectId, requestId, supersedeEventId, now);
      }
    }

    method RecordVerdict(v: Verdict, c: AdjudicateCommand, who: Principal, at: nat, policyVersion: string, pred: int,
                         eventId: string, supersedeEventId: string, now: string) returns (out: Result<JudgmentAnswer>)
      requires JudgmentIndexOk(judgments, judgmentsById) && at < |judgments| && -1 <= pred < |judgments| && pred != at
      requires JudgmentsCompletedBut(judgmentIdempotency, LedgerKey(who.tenantId, c.requestId))
      modifies `judgments, `judgmentEventRecords, `judgmentRelations, `relationRecords, `receiptRecords, `payloads, `judgmentIdempotency
      ensures JudgmentIndexOk(judgments, judgmentsById) && AllJudgmentsCompleted(judgmentIdempotency)
      ensures unchanged(`memories, `chains, `byId, `idempotency, `reviewIdempotency)
      ensures (Snapshot(), out) == CommitVerdict(p, old(Snapshot()), v, c, who, at, policyVersion, pred, eventId, supersedeEventId, now)
    {
      var before := judgments[at];
      var after := Adjudicated(p, before, v, c, who, policyVersion, now);
      ApplyVerdict(v, at, after, pred, who, c.requestId, eventId, supersedeEventId, now);
      EmitReceipt(AdjudicatedPayload(p, memories, before, after, who, now));
      judgmentIdempotency := judgmentIdempotency[LedgerKey(who.tenantId, c.requestId) :=
        JudgmentReservation(AdjudicateHash(p, c), who.subjectId, before.id, Some(eventId), true)];
      out := Ok(JudgmentAnswer(after, Some(eventId), false));
    }

    /** The reservation of a decision: taken only when the request is new, and given back when a check fails. */
    method ReserveAndCheckVerdict(key: string, v: Verdict, c: AdjudicateCommand, who: Principal, policy: JudgmentPolicy)
        returns (check: Result<(nat, string, int)>)
      requires JudgmentIndexOk(judgments, judgmentsById) && AllJudgmentsCompleted(judgmentIdempotency)
      modifies `judgmentIdempotency
      ensures check == AdjudicationCheck(p, old(Snapshot()), v, c, who, policy)
      ensures check.Err? ==> judgmentIdempotency == old(judgmentIdempotency)
      ensures SameBut(judgmentIdempotency, old(judgmentIdempotency), key)
    {
      ghost var before := Snapshot();
      if key !in judgmentIdempotency {
        judgmentIdempotency := judgmentIdempotency[key :=
          JudgmentReservation(AdjudicateHash(p, c), who.subjectId, c.judgmentId, None, false)];
      }
      AdjudicationCheckReadsRows(p, before, Snapshot(), v, c, who, policy);
      check := CheckAdjudication(v, c, who, policy);
      if check.Err? && !judgmentIdempotency[key].completed {
        judgmentIdempotency := judgmentIdempotency - {key};
        assert judgmentIdempotency == before.judgmentLedger;
      }
    }

    method DecideVerdict(key: string, v: Verdict, c: AdjudicateCommand, who: Principal, policy: JudgmentPolicy,
                         eventId: string, supersedeEventId: string, now: string) returns (out: Result<JudgmentAnswer>)
      requires JudgmentIndexOk(judgments, judgmentsById) && AllJudgmentsCompleted(judgmentIdempotency)
      requires key == LedgerKey(who.tenantId, c.requestId)
      modifies `judgments, `judgmentEventRecords, `judgmentRelations, `relationRecords, `receiptRecords, `payloads, `judgmentIdempotency
      ensures JudgmentIndexOk(judgments, judgmentsById) && AllJudgmentsCompleted(judgmentIdempotency)
      ensures unchanged(`memories, `chains, `byId, `idempotency, `reviewIdempotency)
      ensures
        var check := AdjudicationCheck(p, old(Snapshot()), v, c, who, policy);
        if check.Err? then Snapshot() == old(Snapshot()) && out == Err(check.code)
        else (Snapshot(), out) == CommitVerdict(p, old(Snapshot()), v, c, who, check.value.0, check.value.1, check.value.2,
                                                eventId, supersedeEventId, now)
    {
      ghost var before := Snapshot();
      var check := ReserveAndCheckVerdict(key, v, c, who, policy);
      if check.Err? {
        return Err(check.code);
      }
      out := CompleteVerdict(before, v, c, who, check.value.0, check.value.1, check.value.2, eventId, supersedeEventId, now);
    }

    method CompleteVerdict(ghost before: State, v: Verdict, c: AdjudicateCommand, who: Principal, at: nat, policyVersion: string,
                           pred: int, eventId: string, supersedeEventId: string, now: string) returns (out: Result<JudgmentAnswer>)
      requires JudgmentIndexOk(judgments, judgmentsById) && at < |judgments| && -1 <= pred < |judgments| && pred != at
      requires Snapshot() == before.(judgmentLedger := judgmentIdempotency) && AllJudgmentsCompleted(before.judgmentLedger)
      requires SameBut(judgmentIdempotency, before.judgmentLedger, LedgerKey(who.tenantId, c.requestId))
      modifies `judgments, `judgmentEventRecords, `judgmentRelations, `relationRecords, `receiptRecords, `payloads, `judgmentIdempotency
      ensures JudgmentIndexOk(judgments, judgmentsById) && AllJudgmentsCompleted(judgmentIdempotency)
      ensures unchanged(`memories, `chains, `byId, `idempotency, `reviewIdempotency)
      ensures (Snapshot(), out) == CommitVerdict(p, before, v, c, who, at, policyVersion, pred, eventId, supersedeEventId, now)
    {
      VerdictOverwrites(p, before, Snapshot(), v, c, who, at, policyVersion, pred, eventId, supersedeEventId, now);
      out := RecordVerdict(v, c, who, at, policyVersion, pred, eventId, supersedeEventId, now);
    }

    /** confirmJudgment and rejectJudgment. */
    method AdjudicateJudgment(v: Verdict, c: AdjudicateCommand, who: Principal, policy: JudgmentPolicy, eventId: string,
                              supersedeEventId: string, now: string) returns (out: Result<JudgmentAnswer>)
      requires Valid()
      modifies `judgments, `judgmentEventRecords, `judgmentRelations, `relationRecords, `receiptRecords, `payloads, `judgmentIdempotency
      ensures Valid()
      ensures (Snapshot(), out) == AdjudicateStep(p, old(Snapshot()), v, c, who, policy, eventId, supersedeEventId, now)
      ensures out.Err? ==> Snapshot() == old(Snapshot())
    {
      if Blank(c.resolution) {
        return Err(ResolutionRequired);
      }
      if Blank(c.judgmentId) || Blank(c.expectedJudgmentHash) || Blank(c.requestId) {
        return Err(JudgmentNotFound);
      }
      var key := LedgerKey(who.tenantId, c.requestId);
      if key in judgmentIdempotency {
        var existing := judgmentIdempotency[key];
        if existing.commandHash != AdjudicateHash(p, c) || existing.binding != who.subjectId {
          return Err(IdempotencyConflict);
        }
        if existing.completed && existing.eventId.Some? {
          out := Replay(existing);
          return;
        }
      }
      out := DecideVerdict(key, v, c, who, policy, eventId, supersedeEventId, now);
    }

    method Replay(existing: JudgmentReservation) returns (out: Result<JudgmentAnswer>)
      requires JudgmentIndexOk(judgments, judgmentsById)
      ensures out == Replayed(Snapshot(), existing)
    {
      JudgmentIndexFinds(judgments, judgmentsById, existing.judgmentId);
      if existing.judgmentId !in judgmentsById {
        return Err(JudgmentNotFound);
      }
      out := Ok(JudgmentAnswer(judgments[judgmentsById[existing.judgmentId]], existing.eventId, true));
    }

    method RecordWithdrawal(at: nat, requestId: string, caller: Source, eventId: string, now: string)
        returns (out: Result<JudgmentAnswer>)
      requires JudgmentIndexOk(judgments, judgmentsById) && at < |judgments|
      requires JudgmentsCompletedBut(judgmentIdempotency, LedgerKey(judgments[at].tenantId, requestId))
      modifies `judgments, `judgmentEventRecords, `judgmentIdempotency
      ensures JudgmentIndexOk(judgments, judgmentsById) && AllJudgmentsCompleted(judgmentIdempotency)
      ensures unchanged(`memories, `chains, `byId, `idempotency, `reviewIdempotency)
      ensures (Snapshot(), out) == CommitWithdrawal(p, old(Snapshot()), at, requestId, caller, eventId, now)
    {
      var before := judgments[at];
      var after := before.(status := Withdrawn, decidedAt := now, updatedAt := now);
      RecordDecision(at, after, WithdrawalRecord(p, after, requestId, eventId, now));
      judgmentIdempotency := judgmentIdempotency[LedgerKey(before.tenantId, requestId) :=
        JudgmentReservation(p.commandHash([before.id]), p.proposerBinding(caller), before.id, Some(eventId), true)];
      out := Ok(JudgmentAnswer(after, Some(eventId), false));
    }

    method WithdrawJudgment(judgmentId: string, requestId: string, caller: Source, eventId: string, now: string)
        returns (out: Result<JudgmentAnswer>)
      requires Valid()
      modifies `judgments, `judgmentEventRecords, `judgmentIdempotency
      ensures Valid()
      ensures (Snapshot(), out) == WithdrawStep(p, old(Snapshot()), judgmentId, requestId, caller, eventId, now)
      ensures out.Err? ==> Snapshot() == old(Snapshot())
    {
      if Blank(judgmentId) || Blank(requestId) {
        return Err(JudgmentNotFound);
      }
      if !CanPropose(caller) {
        return Err(ProposalUnauthorized);
      }
      JudgmentIndexFinds(judgments, judgmentsById, judgmentId);
      if judgmentId !in judgmentsById {
        return Err(JudgmentNotFound);
      }
      var at := judgmentsById[judgmentId];
      var judgment := judgments[at];
      var key, binding := LedgerKey(judgment.tenantId, requestId), p.proposerBinding(caller);
      if key in judgmentIdempotency {
        var existing := judgmentIdempotency[key];
        if existing.commandHash != p.commandHash([judgmentId]) || existing.binding != binding {
          return Err(IdempotencyConflict);
        }
        if existing.completed && existing.eventId.Some? {
          out := Replay(existing);
          return;
        }
      }
      out := DecideWithdrawal(key, at, requestId, caller, eventId, now);
    }

    /** Reserves the request if it is new, and withdraws or gives the reservation back. */
    method DecideWithdrawal(key: string, at: nat, requestId: string, caller: Source, eventId: string, now: string)
        returns (out: Result<JudgmentAnswer>)
      requires JudgmentIndexOk(judgments, judgmentsById) && AllJudgmentsCompleted(judgmentIdempotency)
      requires at < |judgments| && key == LedgerKey(judgments[at].tenantId, requestId)
      modifies `judgments, `judgmentEventRecords, `judgmentIdempotency
      ensures JudgmentIndexOk(judgments, judgmentsById) && AllJudgmentsCompleted(judgmentIdempotency)
      ensures unchanged(`memories, `chains, `byId, `idempotency, `reviewIdempotency)
      ensures
        var j := old(judgments)[at];
        if j.status != Proposed then Snapshot() == old(Snapshot()) && out == Err(InvalidJudgmentTransition)
        else if p.proposerBinding(j.proposer) != p.proposerBinding(caller)
        then Snapshot() == old(Snapshot()) && out == Err(ProposalUnauthorized)
        else (Snapshot(), out) == CommitWithdrawal(p, old(Snapshot()), at, requestId, caller, eventId, now)
    {
      ghost var before := Snapshot();
      var isNew := key !in judgmentIdempotency;
      if isNew {
        judgmentIdempotency := judgmentIdempotency[key :=
          JudgmentReservation(p.commandHash([judgments[at].id]), p.proposerBinding(caller), judgments[at].id, None, false)];
      }
      var refusal := if judgments[at].status != Proposed then Some(InvalidJudgmentTransition)
                     else if p.proposerBinding(judgments[at].proposer) != p.proposerBinding(caller) then Some(ProposalUnauthorized)
                     else None;
      if refusal.Some? {
        if isNew {
          judgmentIdempotency := judgmentIdempotency - {key};
          assert judgmentIdempotency == before.judgmentLedger;
        }
        return Err(refusal.value);
      }
      WithdrawalOverwrites(p, before, Snapshot(), at, requestId, caller, eventId, now);
      out := RecordWithdrawal(at, requestId, caller, eventId, now);
    }
  }
}
