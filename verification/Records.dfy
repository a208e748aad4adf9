/** The rows and envelopes that the store, the receipts and the checkers share. */
module Records {
  import opened Text

  datatype Option<+T> = None | Some(value: T)

  // ---------------------------------------------------------------- memories

  /** A company scope, or the institutional one. An absent period is "". */
  datatype Scope =
    | Institutional
    | Company(organizationId: string, companyId: string, ruc: string, period: string)

  datatype ActorKind = Human | Agent | System

  datatype Status = Active | PendingReview | Approved | Rejected | Superseded | Voided | Returned

  datatype FiscalEffect =
    | NoEffect | JournalEntry | Declaration | Closing | Adjustment | Reclassification
    | Approval | SunatFiling

  datatype MaterialityLevel = Undeclared | Normal | Material | Critical

  datatype MemoryRelation =
    | Related | Compatible | Scoped | ConflictsWith | Supersedes | NotConflict | Supports
    | Contradicts | Explains | DerivedFrom | PostedAs | Reconciles | Reverses | Requires | Violates
    | ApprovedBy | RejectedBy

  datatype Content = Content(what: string, why: string, where: string, learned: string)

  datatype Source = Source(
    system: string, reference: string, actorId: string, actorKind: ActorKind,
    model: string, session: string)

  /** One revision. Optional strings of the source are "" when absent. */
  datatype Memory = Memory(
    id: string, topicKey: string, title: string, kind: string, scope: Scope, content: Content,
    status: Status, fiscalEffect: FiscalEffect, effectiveAt: string, recordedAt: string,
    observedAt: string, source: Source, evidenceRefs: seq<string>, ruleRefs: seq<string>,
    materialityLevel: MaterialityLevel, receiptId: string, contentHash: string,
    envelopeHash: string, supersedesId: string, revision: nat)

  /** Exactly the fields that the envelope hash covers; the cached hash is not one of them. */
  datatype EnvelopeView = EnvelopeView(
    scope: Scope, topicKey: string, effectiveAt: string, contentHash: string,
    fiscalEffect: FiscalEffect, status: Status, source: Source, recordedAt: string,
    observedAt: string, supersedesId: string, receiptId: string,
    evidenceRefs: seq<string>, ruleRefs: seq<string>)

  function ViewOf(m: Memory): EnvelopeView {
    EnvelopeView(m.scope, m.topicKey, m.effectiveAt, m.contentHash, m.fiscalEffect, m.status,
                 m.source, m.recordedAt, m.observedAt, m.supersedesId, m.receiptId,
                 m.evidenceRefs, m.ruleRefs)
  }

  function ScopeKey(scope: Scope): string {
    match scope
    case Institutional => "institutional"
    case Company(organization, company, ruc, period) =>
      JoinNul(["company", organization, company, ruc, period])
  }

  /** The key of a revision chain. */
  function ChainKey(topicKey: string, scope: Scope): string {
    JoinNul([topicKey, ScopeKey(scope)])
  }

  predicate PlainScope(scope: Scope) {
    scope.Company? ==>
      NulFree(scope.organizationId) && NulFree(scope.companyId) && NulFree(scope.ruc) && NulFree(scope.period)
  }

  // ---------------------------------------------------------------- receipts

  datatype ReceiptPayload = ReceiptPayload(
    version: string, subjectType: string, subjectId: string, action: string, tenantId: string,
    companyId: string, fiscalPeriodId: string, reviewedEnvelopeHash: string,
    resultingEnvelopeHash: string, reviewedJudgmentHash: string, resultingJudgmentHash: string,
    fromMemoryId: string, fromEnvelopeHash: string, toMemoryId: string, toEnvelopeHash: string,
    successorId: string, evidenceRef: string, reason: string, principalId: string,
    membershipId: string, principalRoles: seq<string>, authenticationMethod: string,
    assuranceLevel: string, principalAuthenticatedAt: string, policyVersion: string,
    issuedAt: string, reviewedLifecycleHash: string, resultingLifecycleHash: string,
    executionAttemptId: string)

  datatype SignedReceipt = SignedReceipt(
    subjectType: string, subjectId: string, action: string, tenantId: string, companyId: string,
    fiscalPeriodId: string, payloadHash: string, previousReceiptHash: string,
    principalId: string, membershipId: string, policyVersion: string, algorithm: string,
    keyId: string, signature: string, issuedAt: string)

  /** The tenant, company and fiscal period that a subject or a receipt belongs to. */
  datatype SubjectScope = SubjectScope(tenantId: string, companyId: string, fiscalPeriodId: string)

  function PayloadScope(payload: ReceiptPayload): SubjectScope {
    SubjectScope(payload.tenantId, payload.companyId, payload.fiscalPeriodId)
  }

  const RECEIPT_ALGORITHM := "Ed25519"
  const RECEIPT_PAYLOAD_VERSION := "receipt-payload/v0.4.0"
  const RECEIPT_PAYLOAD_VERSION_V09 := "receipt-payload/v0.9.0"
  const RECEIPT_PAYLOAD_VERSION_V10 := "receipt-payload/v0.10.0"

  const MEMORY_SUBJECT := "memory"
  const JUDGMENT_SUBJECT := "judgment"
  const RECONCILIATION_SUBJECT := "reconciliation"
  const OBJECT_SUBJECT := "evidence_object"

  const MEMORY_RECORDED := "memory_recorded"
  const MEMORY_APPROVED := "memory_approved"
  const MEMORY_REJECTED := "memory_rejected"
  const MEMORY_RETURNED := "memory_returned"
  const MEMORY_VOIDED := "memory_voided"
  const MEMORY_SUPERSEDED := "memory_superseded"
  const EVIDENCE_LINKED := "evidence_linked"
  const RELATION_CONFIRMED := "relation_confirmed"
  const RELATION_REJECTED := "relation_rejected"
  const PURGE_EXECUTED := "purge_executed"

  const RECEIPT_SUBJECT_TYPES: set<string> :=
    {MEMORY_SUBJECT, JUDGMENT_SUBJECT, RECONCILIATION_SUBJECT, OBJECT_SUBJECT}

  /** The closed action set. */
  const RECEIPT_ACTIONS: set<string> :=
    {MEMORY_RECORDED, MEMORY_APPROVED, MEMORY_REJECTED, MEMORY_RETURNED, MEMORY_VOIDED,
     RELATION_CONFIRMED, RELATION_REJECTED, EVIDENCE_LINKED, MEMORY_SUPERSEDED,
     "memory_closed", "memory_reopened", "reconciliation_confirmed", "reconciliation_rejected",
     "object_stored", "retention_bound", "purge_requested", "purge_approved", "purge_rejected",
     "purge_cancelled", "purge_withdrawn", "purge_intent", PURGE_EXECUTED, "hold_placed", "hold_lifted"}

  // -------------------------------------------------------------- chain keys

  lemma CompanyKeyIsNotInstitutional(s: Scope)
    requires s.Company?
    ensures ScopeKey(s) != ScopeKey(Institutional)
  {
    assert ScopeKey(s)[0] == 'c';
  }

  lemma PlainScopeKeysDiffer(a: Scope, b: Scope)
    requires PlainScope(a) && PlainScope(b) && ScopeKey(a) == ScopeKey(b)
    ensures a == b
  {
    if a.Company? != b.Company? {
      CompanyKeyIsNotInstitutional(if a.Company? then a else b);
    } else if a.Company? {
      var partsA := ["company", a.organizationId, a.companyId, a.ruc, a.period];
      var partsB := ["company", b.organizationId, b.companyId, b.ruc, b.period];
      JoinNulInjective(partsA, partsB);
      assert partsA[1] == partsB[1] && partsA[2] == partsB[2] && partsA[3] == partsB[3] && partsA[4] == partsB[4];
    }
  }

  /** Without NUL in topics and scopes, one chain key means one topic in one scope. */
  lemma PlainChainKeysDiffer(topicA: string, a: Scope, topicB: string, b: Scope)
    requires NulFree(topicA) && NulFree(topicB) && PlainScope(a) && PlainScope(b)
    requires ChainKey(topicA, a) == ChainKey(topicB, b)
    ensures topicA == topicB && a == b
  {
    var partsA, partsB := [topicA, ScopeKey(a)], [topicB, ScopeKey(b)];
    JoinNulInjective(partsA, partsB);
    assert partsA[0] == partsB[0] && partsA[1] == partsB[1];
    PlainScopeKeysDiffer(a, b);
  }

  /** With NUL allowed, two company scopes can share one chain. */
  lemma ChainKeysCanCollide(ruc: string, period: string, topic: string)
    ensures
      var a, b := Company("x\0y", "z", ruc, period), Company("x", "y\0z", ruc, period);
      a != b && ChainKey(topic, a) == ChainKey(topic, b)
  {
    var a, b := Company("x\0y", "z", ruc, period), Company("x", "y\0z", ruc, period);
    assert |a.organizationId| != |b.organizationId|;
    var tail := JoinNul([ruc, period]);
    JoinTwo(a.organizationId, a.companyId, [ruc, period]);
    JoinTwo(b.organizationId, b.companyId, [ruc, period]);
    assert a.organizationId + [NUL] + a.companyId == b.organizationId + [NUL] + b.companyId;
    JoinCons("company", [a.organizationId, a.companyId, ruc, period]);
    JoinCons("company", [b.organizationId, b.companyId, ruc, period]);
  }

  lemma JoinCons(head: string, tail: seq<string>)
    requires tail != []
    ensures JoinNul([head] + tail) == head + [NUL] + JoinNul(tail)
  {
    assert ([head] + tail)[1..] == tail;
  }

  lemma JoinTwo(first: string, second: string, tail: seq<string>)
    requires tail != []
    ensures JoinNul([first, second] + tail) == first + [NUL] + second + [NUL] + JoinNul(tail)
  {
    assert [first, second] + tail == [first] + ([second] + tail);
    JoinCons(second, tail);
    JoinCons(first, [second] + tail);
    var rest := JoinNul(tail);
    assert first + [NUL] + (second + [NUL] + rest) == first + [NUL] + second + [NUL] + rest;
  }
}
