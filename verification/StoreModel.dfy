/** The in-memory store as a value: what each memory operation does to the collections.
    The class InMemoryMemoryStore is proved to do exactly this (Store.dfy). */
module StoreModel {
  import opened Text
  import opened Records
  import opened RuleLinks

  // ------------------------------------------------------------- vocabulary

  datatype ErrorCode =
    | InvalidInput | InvalidRef | MemoryNotFound | ReasonRequired | IdempotencyConflict
    | CompanyScopeDenied | TenantScopeMismatch | AlreadyDecided | InvalidTransition
    | EnvelopeMismatch | SodViolation | GateRefused | PolicyDenied(reasonCode: string)
    | RelationNotProposable | ProposalUnauthorized | JudgmentNotFound | JudgmentConflict
    | InvalidJudgmentTransition | JudgmentHashMismatch | ResolutionRequired
    | RuleLinkRefused(error: LinkError)

  datatype Result<+T> = Ok(value: T) | Err(code: ErrorCode)

  /** A verified principal: always a separate argument, never part of a command. */
  datatype Principal = Principal(
    subjectId: string, tenantId: string, membershipId: string, companyScopes: seq<string>,
    roles: seq<string>, authenticationMethod: string, assuranceLevel: string, authenticatedAt: string)

  datatype PrincipalSnapshot = PrincipalSnapshot(
    subjectId: string, membershipId: string, roles: seq<string>, authenticationMethod: string,
    assuranceLevel: string, authenticatedAt: string)

  datatype PolicyDecision = PolicyDecision(allowed: bool, reasonCode: string, policyVersion: string)

  type ApprovalPolicy = (Principal, Memory) -> PolicyDecision

  datatype SaveInput = SaveInput(
    topicKey: string, title: string, kind: string, scope: Scope, content: Content,
    fiscalEffect: FiscalEffect, effectiveAt: Option<string>, observedAt: string, source: Source,
    ruleRefs: Option<seq<string>>, ruleLinks: seq<PinnedRule>, materialityLevel: MaterialityLevel,
    receiptId: string,
    fieldsValid: bool,  // outcome of the validators before the rule links are looked at
    rowValid: bool)     // outcome of the validators of the finished row

  datatype ApproveCommand = ApproveCommand(
    memoryId: string, expectedEnvelopeHash: string, reason: string, requestId: string)

  datatype Decision = Reject | Return

  function StatusOf(d: Decision): Status { if d.Reject? then Rejected else Returned }

  datatype Transition = Transition(
    memoryId: string, from: Status, to: Status, actor: string, actorKind: ActorKind, timestamp: string)

  datatype Relation = Relation(fromId: string, toId: string, relation: MemoryRelation, actor: string, timestamp: string)

  /** An authenticated approval, rejection or return. */
  datatype DecisionEvent = DecisionEvent(
    id: string, requestId: string, memoryId: string, tenantId: string, companyId: string,
    toStatus: Status, reviewedEnvelopeHash: string, resultingEnvelopeHash: string, reason: string,
    principal: PrincipalSnapshot, policyVersion: string, createdAt: string)

  datatype DecisionResult = DecisionResult(
    memoryId: string, eventId: string, currentStatus: Status, reviewedEnvelopeHash: string,
    resultingEnvelopeHash: string, reason: string, principalSubjectId: string,
    membershipId: string, policyVersion: string, decidedAt: string, idempotentReplay: bool)

  /** A reservation of a request id; it is completed when it carries a result. */
  datatype Reservation = Reservation(
    commandHash: string, principalSubjectId: string, membershipId: string, result: Option<DecisionResult>)

  // --------------------------------------------------------------- judgments

  datatype JudgmentStatus = Proposed | Confirmed | Declined | Withdrawn | Replaced

  datatype Judgment = Judgment(
    id: string, tenantId: string, companyId: string, fiscalPeriodId: string, fromId: string,
    toId: string, relation: MemoryRelation, status: JudgmentStatus, proposer: Source,
    proposalReason: string, resolution: string, adjudicator: Option<PrincipalSnapshot>,
    policyVersion: string, predecessorId: string, supersedesId: string, proposedAt: string,
    updatedAt: string, decidedAt: string)

  datatype JudgmentAction = ConfirmAction | RejectAction | WithdrawAction | SupersedeAction

  datatype JudgmentEvent = JudgmentEvent(
    id: string, requestId: string, judgmentId: string, tenantId: string, action: JudgmentAction,
    from: JudgmentStatus, to: JudgmentStatus, judgmentHash: string, principal: Option<PrincipalSnapshot>,
    policyVersion: string, reason: string, createdAt: string)

  datatype JudgmentReservation = JudgmentReservation(
    commandHash: string, binding: string, judgmentId: string, eventId: Option<string>, completed: bool)

  // -------------------------------------------------------------- primitives

  /** What the store calls and this model does not define: digests, signing and text folding.
      Every theorem about the store holds for all of them. */
  datatype Primitives = Primitives(
    chainKey: (string, Scope) -> string,
    envelopeHash: EnvelopeView -> string,
    contentHash: (SaveInput, string) -> string,
    judgmentHash: Judgment -> string,
    commandHash: seq<string> -> string,
    relationName: MemoryRelation -> string,
    proposerBinding: Source -> string,
    payloadHash: ReceiptPayload -> string,
    receiptHash: SignedReceipt -> string,
    signature: SignedReceipt -> string,
    keyId: string,
    signing: bool,
    lower: string -> string,
    normalize: string -> string,
    parses: string -> bool,  // `Date.parse` finds an instant
    canonicalRoles: seq<string> -> seq<string>)

  function Envelope(p: Primitives, m: Memory): string {
    p.envelopeHash(ViewOf(m))
  }

  // ------------------------------------------------------------------- state

  datatype State = State(
    memories: seq<Memory>,
    relations: seq<Relation>,
    transitions: seq<Transition>,
    approvals: seq<DecisionEvent>,
    decisions: seq<DecisionEvent>,
    receipts: seq<SignedReceipt>,
    payloads: seq<ReceiptPayload>,  // the payload each receipt signed; the store keeps only its hash
    approvalLedger: map<string, Reservation>,
    reviewLedger: map<string, Reservation>,
    judgments: seq<Judgment>,
    judgmentEvents: seq<JudgmentEvent>,
    judgmentRelations: seq<Relation>,
    judgmentLedger: map<string, JudgmentReservation>)

  const EMPTY := State([], [], [], [], [], [], [], map[], map[], [], [], [], map[])

  const KERNEL_POLICY_VERSION := "kernel/v0.4.0"

  function FindMemory(ms: seq<Memory>, id: string): (at: int)
    ensures -1 <= at < |ms|
    ensures at >= 0 ==> ms[at].id == id
    ensures at < 0 ==> forall i | 0 <= i < |ms| :: ms[i].id != id
  {
    if ms == [] then -1
    else if ms[|ms| - 1].id == id then |ms| - 1
    else FindMemory(ms[..|ms| - 1], id)
  }

  function KeyOf(p: Primitives, m: Memory): string {
    p.chainKey(m.topicKey, m.scope)
  }

  /** The position of the newest revision under a chain key, or -1. */
  function LatestAt(p: Primitives, ms: seq<Memory>, key: string): (at: int)
    ensures -1 <= at < |ms|
    ensures at >= 0 ==> KeyOf(p, ms[at]) == key
    ensures forall i | at < i < |ms| :: KeyOf(p, ms[i]) != key
  {
    if ms == [] then -1
    else if KeyOf(p, ms[|ms| - 1]) == key then |ms| - 1
    else LatestAt(p, ms[..|ms| - 1], key)
  }

  // --------------------------------------------------------- lifecycle guards

  function InitialStatus(effect: FiscalEffect): Status {
    if effect == NoEffect then Active else PendingReview
  }

  predicate CanVoid(s: Status) {
    s == Active || s == PendingReview || s == Approved
  }

  /** The guards of the gate; targets other than these three reach the store unchecked. */
  predicate GateAllows(from: Status, to: Status, actorKind: ActorKind) {
    match to
    case Approved => from == PendingReview && actorKind == Human
    case Rejected => from == PendingReview && actorKind == Human
    case Voided => CanVoid(from) && actorKind != Agent
    case _ => true
  }

  predicate GateTarget(to: Status) {
    to == Approved || to == Rejected || to == Voided
  }

  predicate RejectReasonRequired(m: Memory) {
    m.materialityLevel == Material || m.materialityLevel == Critical ||
    m.fiscalEffect == Closing || m.fiscalEffect == Declaration || m.fiscalEffect == SunatFiling
  }

  // ---------------------------------------------------------------- receipts

  function ScopeOf(scope: Scope): SubjectScope {
    match scope
    case Institutional => SubjectScope("", "", "")
    case Company(organization, company, _, period) => SubjectScope(organization, company, period)
  }

  /** A claimed act names its actor and carries no authentication. */
  function Claimed(actor: string): PrincipalSnapshot {
    PrincipalSnapshot(actor, "", [], "", "", "")
  }

  function Snapshot(p: Primitives, who: Principal): PrincipalSnapshot {
    PrincipalSnapshot(who.subjectId, who.membershipId, p.canonicalRoles(who.roles),
                      who.authenticationMethod, who.assuranceLevel, who.authenticatedAt)
  }

  function BasePayload(subjectType: string, subjectId: string, action: string, scope: SubjectScope,
                       who: PrincipalSnapshot, policyVersion: string, issuedAt: string): ReceiptPayload
  {
    ReceiptPayload(RECEIPT_PAYLOAD_VERSION, subjectType, subjectId, action, scope.tenantId,
                   scope.companyId, scope.fiscalPeriodId, "", "", "", "", "", "", "", "", "", "", "",
                   who.subjectId, who.membershipId, who.roles, who.authenticationMethod,
                   who.assuranceLevel, who.authenticatedAt, policyVersion, issuedAt, "", "", "")
  }

  predicate IsAbout(r: SignedReceipt, subjectType: string, subjectId: string) {
    r.subjectType == subjectType && r.subjectId == subjectId
  }

  /** The digest of the subject's latest receipt; "" at genesis. */
  function LatestReceiptHash(p: Primitives, receipts: seq<SignedReceipt>, subjectType: string, subjectId: string): string {
    if receipts == [] then ""
    else
      var last := receipts[|receipts| - 1];
      if IsAbout(last, subjectType, subjectId) then p.receiptHash(last)
      else LatestReceiptHash(p, receipts[..|receipts| - 1], subjectType, subjectId)
  }

  /** The signed envelope of a payload chained on the previous receipt's digest. */
  function Sign(p: Primitives, payload: ReceiptPayload, previous: string): SignedReceipt {
    var unsigned := SignedReceipt(
      payload.subjectType, payload.subjectId, payload.action, payload.tenantId, payload.companyId,
      payload.fiscalPeriodId, p.payloadHash(payload), previous, payload.principalId,
      payload.membershipId, payload.policyVersion, RECEIPT_ALGORITHM, p.keyId, "", payload.issuedAt);
    unsigned.(signature := p.signature(unsigned))
  }

  /** Appends one receipt, or nothing when the store has no signer. */
  function Emit(p: Primitives, s: State, payload: ReceiptPayload): State {
    if !p.signing then s
    else
      var previous := LatestReceiptHash(p, s.receipts, payload.subjectType, payload.subjectId);
      s.(receipts := s.receipts + [Sign(p, payload, previous)], payloads := s.payloads + [payload])
  }

  // -------------------------------------------------------------------- save

  function EffectiveAt(input: SaveInput, now: string): string {
    if input.effectiveAt.Some? then input.effectiveAt.value else now
  }

  /** The tenant boundary of a scope; "" for the institutional one. */
  function TenantOf(scope: Scope): string {
    if scope.Company? then scope.organizationId else ""
  }

  /** Why a rule link of a row in this tenant, taking effect then, is refused. */
  function TargetRefusal(ms: seq<Memory>, l: PinnedRule, effectiveAt: string, tenant: string): Option<LinkError> {
    if l.effectiveAt != effectiveAt then Some(EffectiveAtMismatch)
    else
      var at := FindMemory(ms, l.version);
      if at < 0 then Some(TargetNotFound)
      else if ms[at].kind != "rule" then Some(TargetNotARule)
      else if ms[at].topicKey != l.ref then Some(TargetTopicMismatch)
      else if TenantOf(ms[at].scope) != tenant then Some(TargetTenantMismatch)
      else None
  }

  function FirstTargetRefusal(ms: seq<Memory>, links: seq<PinnedRule>, effectiveAt: string, tenant: string): Option<LinkError>
  {
    if links == [] then None
    else
      var first := TargetRefusal(ms, links[0], effectiveAt, tenant);
      if first.Some? then first else FirstTargetRefusal(ms, links[1..], effectiveAt, tenant)
  }

  /** Why a save is refused, in the order of the checks. */
  function SaveRefusal(p: Primitives, s: State, input: SaveInput, now: string): Option<ErrorCode> {
    if Blank(input.topicKey) || Blank(input.title) || !input.fieldsValid then Some(InvalidInput)
    else match PinsOf(p.parses, input.ruleLinks)
         case Refused(e) => Some(RuleLinkRefused(e))
         case Pinned(links) =>
           match FirstTargetRefusal(s.memories, links, EffectiveAt(input, now), TenantOf(input.scope))
           case Some(e) => Some(RuleLinkRefused(e))
           case None => if !input.rowValid then Some(InvalidInput) else None
  }

  /** The bare rule references that a new revision stores: none when the input names none, even with links. */
  function RuleRefsOf(p: Primitives, input: SaveInput): seq<string> {
    match input.ruleRefs
    case None => []
    case Some(refs) =>
      match PinsOf(p.parses, input.ruleLinks)
      case Refused(_) => refs
      case Pinned(links) => DerivedRefs(refs, links)
  }

  function NewRevision(p: Primitives, input: SaveInput, id: string, now: string, revision: nat): Memory {
    var effectiveAt := EffectiveAt(input, now);
    var m := Memory(
      id, input.topicKey, input.title, input.kind, input.scope, input.content,
      InitialStatus(input.fiscalEffect), input.fiscalEffect, effectiveAt, now, input.observedAt,
      input.source, [], RuleRefsOf(p, input), input.materialityLevel, input.receiptId,
      p.contentHash(input, effectiveAt), "", "", revision);
    m.(envelopeHash := Envelope(p, m))
  }

  function RecordedPayload(p: Primitives, m: Memory): ReceiptPayload {
    BasePayload(MEMORY_SUBJECT, m.id, MEMORY_RECORDED, ScopeOf(m.scope), Claimed(m.source.actorId),
                KERNEL_POLICY_VERSION, m.recordedAt).(resultingEnvelopeHash := Envelope(p, m))
  }

  /** The receipt of the automatic supersession of `prior` by `m`. */
  function SupersededPayload(p: Primitives, prior: Memory, superseded: Memory, m: Memory): ReceiptPayload {
    BasePayload(MEMORY_SUBJECT, prior.id, MEMORY_SUPERSEDED, ScopeOf(m.scope), Claimed(m.source.actorId),
                KERNEL_POLICY_VERSION, m.recordedAt).(
      fromEnvelopeHash := Envelope(p, prior),
      toEnvelopeHash := Envelope(p, superseded),
      successorId := m.id)
  }

  /** What save does to the rows: the chain's current revision, if any, gives way to m. */
  function Saved(p: Primitives, ms: seq<Memory>, m: Memory): seq<Memory> {
    var at := LatestAt(p, ms, KeyOf(p, m));
    if at >= 0 && CanVoid(ms[at].status)
    then ms[at := Replacing(ms[at], m)] + [m]
    else ms + [m]
  }

  /** The superseded row; its cached envelope hash is not refreshed. */
  function Replacing(prior: Memory, m: Memory): Memory {
    prior.(status := Superseded, supersedesId := m.id)
  }

  /** The two receipts of a superseding save: the prior revision's first. */
  function SignSuperseding(p: Primitives, s: State, prior: Memory, m: Memory): State {
    Emit(p, Emit(p, s, SupersededPayload(p, prior, Replacing(prior, m), m)), RecordedPayload(p, m))
  }

  function SupersedeRelation(prior: Memory, m: Memory): Relation {
    Relation(prior.id, m.id, Supersedes, m.source.actorId, m.recordedAt)
  }

  /** The rows and relations after a save, before its receipts are signed. */
  function StoredState(p: Primitives, s: State, m: Memory): State {
    var at := LatestAt(p, s.memories, KeyOf(p, m));
    if at >= 0 && CanVoid(s.memories[at].status)
    then s.(memories := Saved(p, s.memories, m), relations := s.relations + [SupersedeRelation(s.memories[at], m)])
    else s.(memories := Saved(p, s.memories, m))
  }

  /** Signing changes nothing but the receipts. */
  predicate OnlySigned(s: State, after: State) {
    after == s.(receipts := after.receipts, payloads := after.payloads)
  }

  lemma EmitOnlySigns(p: Primitives, s: State, payload: ReceiptPayload)
    ensures OnlySigned(s, Emit(p, s, payload))
  {
  }

  function SaveState(p: Primitives, s: State, m: Memory): State {
    var at := LatestAt(p, s.memories, KeyOf(p, m));
    if at >= 0 && CanVoid(s.memories[at].status) then SignSuperseding(p, StoredState(p, s, m), s.memories[at], m)
    else Emit(p, StoredState(p, s, m), RecordedPayload(p, m))
  }

  lemma SaveOnlySigns(p: Primitives, s: State, m: Memory, after: State)
    requires after == SaveState(p, s, m)
    ensures OnlySigned(StoredState(p, s, m), after)
  {
    var at := LatestAt(p, s.memories, KeyOf(p, m));
    var stored := StoredState(p, s, m);
    if at >= 0 && CanVoid(s.memories[at].status) {
      var payload := SupersededPayload(p, s.memories[at], Replacing(s.memories[at], m), m);
      EmitOnlySigns(p, stored, payload);
      EmitOnlySigns(p, Emit(p, stored, payload), RecordedPayload(p, m));
    } else {
      EmitOnlySigns(p, stored, RecordedPayload(p, m));
    }
  }

  /** The next revision of the input's chain. */
  function RevisionFor(p: Primitives, s: State, input: SaveInput, id: string, now: string): Memory {
    var at := LatestAt(p, s.memories, p.chainKey(input.topicKey, input.scope));
    NewRevision(p, input, id, now, if at < 0 then 1 else s.memories[at].revision + 1)
  }

  function SaveStep(p: Primitives, s: State, input: SaveInput, id: string, now: string): (State, Result<Memory>) {
    var refusal := SaveRefusal(p, s, input, now);
    if refusal.Some? then (s, Err(refusal.value))
    else
      var m := RevisionFor(p, s, input, id, now);
      (SaveState(p, s, m), Ok(m))
  }

  // ----------------------------------------------------- transitions and links

  function TransitionPayload(p: Primitives, before: Memory, after: Memory, actor: string, timestamp: string): ReceiptPayload {
    BasePayload(MEMORY_SUBJECT, before.id, if after.status == Rejected then MEMORY_REJECTED else MEMORY_VOIDED,
                ScopeOf(before.scope), Claimed(actor), KERNEL_POLICY_VERSION, timestamp).(
      reviewedEnvelopeHash := Envelope(p, before),
      resultingEnvelopeHash := Envelope(p, after))
  }

  function WithStatus(p: Primitives, m: Memory, to: Status): Memory {
    var moved := m.(status := to);
    moved.(envelopeHash := Envelope(p, moved))
  }

  /** Row `at` moved and the move logged. */
  function LoggedMove(p: Primitives, s: State, at: nat, to: Status, actor: string, actorKind: ActorKind, timestamp: string): State
    requires at < |s.memories|
  {
    var before := s.memories[at];
    s.(memories := s.memories[at := WithStatus(p, before, to)],
       transitions := s.transitions + [Transition(before.id, before.status, to, actor, actorKind, timestamp)])
  }

  /** The effect of a status transition on a stored row: receipts only for rejected and voided. */
  function MoveStep(p: Primitives, s: State, at: nat, to: Status, actor: string, actorKind: ActorKind,
                    timestamp: string): (State, Result<Memory>)
    requires at < |s.memories|
  {
    var before := s.memories[at];
    var after := WithStatus(p, before, to);
    var s1 := LoggedMove(p, s, at, to, actor, actorKind, timestamp);
    if to == Rejected || to == Voided then
      (Emit(p, s1, TransitionPayload(p, before, after, actor, timestamp)), Ok(after))
    else (s1, Ok(after))
  }

  /** applyStatusTransition: no guard of its own. */
  function TransitionStep(p: Primitives, s: State, memoryId: string, to: Status, actor: string,
                          actorKind: ActorKind, timestamp: string): (State, Result<Memory>)
  {
    var at := FindMemory(s.memories, memoryId);
    if at < 0 then (s, Err(MemoryNotFound)) else MoveStep(p, s, at, to, actor, actorKind, timestamp)
  }

  function GateStep(p: Primitives, s: State, memoryId: string, to: Status, actor: string,
                    actorKind: ActorKind, timestamp: string): (State, Result<Memory>)
  {
    var at := FindMemory(s.memories, memoryId);
    if at < 0 then (s, Err(MemoryNotFound))
    else if !GateAllows(s.memories[at].status, to, actorKind) then (s, Err(GateRefused))
    else TransitionStep(p, s, memoryId, to, actor, actorKind, timestamp)
  }

  datatype LinkKind = EvidenceLink | RuleLink

  function RefsOf(m: Memory, kind: LinkKind): seq<string> {
    if kind.EvidenceLink? then m.evidenceRefs else m.ruleRefs
  }

  function Linked(p: Primitives, m: Memory, kind: LinkKind, ref: string): Memory {
    var grown := if kind.EvidenceLink? then m.(evidenceRefs := m.evidenceRefs + [ref])
                 else m.(ruleRefs := m.ruleRefs + [ref]);
    grown.(envelopeHash := Envelope(p, grown))
  }

  function LinkedPayload(p: Primitives, before: Memory, after: Memory, ref: string, actor: string, now: string): ReceiptPayload {
    BasePayload(MEMORY_SUBJECT, before.id, EVIDENCE_LINKED, ScopeOf(before.scope), Claimed(actor),
                KERNEL_POLICY_VERSION, now).(
      fromEnvelopeHash := Envelope(p, before),
      toEnvelopeHash := Envelope(p, after),
      evidenceRef := ref)
  }

  function LinkStep(p: Primitives, s: State, kind: LinkKind, memoryId: string, ref: string,
                    actor: string, now: string): (State, Result<()>)
  {
    if Blank(ref) then (s, Err(InvalidRef))
    else
      var at := FindMemory(s.memories, memoryId);
      if at < 0 then (s, Err(MemoryNotFound))
      else if ref in RefsOf(s.memories[at], kind) then (s, Ok(()))
      else
        var before := s.memories[at];
        var after := Linked(p, before, kind, ref);
        var s1 := s.(memories := s.memories[at := after]);
        if kind.EvidenceLink? then (Emit(p, s1, LinkedPayload(p, before, after, ref, actor, now)), Ok(()))
        else (s1, Ok(()))
  }

  // --------------------------------------------------------------- decisions

  function LedgerKey(tenantId: string, requestId: string): string {
    JoinNul([tenantId, requestId])
  }

  function CommandHash(p: Primitives, c: ApproveCommand): string {
    p.commandHash([c.memoryId, p.lower(c.expectedEnvelopeHash), c.reason])
  }

  predicate Binds(r: Reservation, commandHash: string, who: Principal) {
    r.commandHash == commandHash && r.principalSubjectId == who.subjectId && r.membershipId == who.membershipId
  }

  /** The checks that approvals and review decisions share, in order; the row's position. */
  function ScopeCheck(s: State, memoryId: string, who: Principal): (r: Result<nat>)
    ensures r.Ok? ==> r.value < |s.memories| && s.memories[r.value].id == memoryId
    ensures r.Ok? ==> s.memories[r.value].scope.Company? && s.memories[r.value].scope.organizationId == who.tenantId
  {
    var at := FindMemory(s.memories, memoryId);
    if at < 0 then Err(MemoryNotFound)
    else
      var scope := s.memories[at].scope;
      if !scope.Company? then Err(CompanyScopeDenied)
      else if who.tenantId != scope.organizationId then Err(TenantScopeMismatch)
      else if scope.companyId !in who.companyScopes then Err(CompanyScopeDenied)
      else Ok(at)
  }

  predicate ReviewedHashMatches(p: Primitives, expected: string, m: Memory) {
    p.normalize(expected) == p.lower(Envelope(p, m))
  }

  /** Every check of an approval after the ledger, in the order the store makes them. */
  function ApprovalCheck(p: Primitives, s: State, c: ApproveCommand, who: Principal,
                         policy: ApprovalPolicy): (r: Result<(nat, string)>)
    ensures r.Ok? ==> r.value.0 < |s.memories| && s.memories[r.value.0].id == c.memoryId
    ensures r.Ok? ==> s.memories[r.value.0].status == PendingReview
    ensures r.Ok? ==> s.memories[r.value.0].scope.Company? && s.memories[r.value.0].scope.organizationId == who.tenantId
  {
    var found := ScopeCheck(s, c.memoryId, who);
    if found.Err? then Err(found.code)
    else
      var m := s.memories[found.value];
      if m.status == Approved || m.status == Rejected then Err(AlreadyDecided)
      else if m.status != PendingReview then Err(InvalidTransition)
      else if !ReviewedHashMatches(p, c.expectedEnvelopeHash, m) then Err(EnvelopeMismatch)
      else
        var decision := policy(who, m);
        if !decision.allowed then Err(PolicyDenied(decision.reasonCode))
        else if Envelope(p, m.(status := Approved)) == Envelope(p, m) then Err(InvalidTransition)
        else Ok((found.value, decision.policyVersion))
  }

  /** Every check of a reject or return after the ledger, in order. */
  function ReviewCheck(p: Primitives, s: State, c: ApproveCommand, who: Principal, d: Decision): (r: Result<nat>)
    ensures r.Ok? ==> r.value < |s.memories| && s.memories[r.value].id == c.memoryId
    ensures r.Ok? ==> s.memories[r.value].status == PendingReview
    ensures r.Ok? ==> s.memories[r.value].scope.Company? && s.memories[r.value].scope.organizationId == who.tenantId
  {
    var found := ScopeCheck(s, c.memoryId, who);
    if found.Err? then Err(found.code)
    else
      var m := s.memories[found.value];
      if m.status == Approved || m.status == Rejected || m.status == Returned then Err(AlreadyDecided)
      else if m.status != PendingReview then Err(InvalidTransition)
      else if !ReviewedHashMatches(p, c.expectedEnvelopeHash, m) then Err(EnvelopeMismatch)
      else if m.source.actorId != "" && m.source.actorId == who.subjectId then Err(SodViolation)
      else if (d.Return? || RejectReasonRequired(m)) && Blank(c.reason) then Err(ReasonRequired)
      else if Envelope(p, m.(status := StatusOf(d))) == Envelope(p, m) then Err(InvalidTransition)
      else Ok(found.value)
  }

  function EventFor(p: Primitives, c: ApproveCommand, who: Principal, before: Memory, after: Memory,
                    policyVersion: string, eventId: string, now: string): DecisionEvent
    requires before.scope.Company?
  {
    DecisionEvent(eventId, c.requestId, before.id, before.scope.organizationId, before.scope.companyId,
                  after.status, Envelope(p, before), Envelope(p, after), c.reason, Snapshot(p, who),
                  policyVersion, now)
  }

  function ResultFor(e: DecisionEvent, who: Principal): DecisionResult {
    DecisionResult(e.memoryId, e.id, e.toStatus, e.reviewedEnvelopeHash, e.resultingEnvelopeHash,
                   e.reason, who.subjectId, who.membershipId, e.policyVersion, e.createdAt, false)
  }

  function DecidedPayload(p: Primitives, c: ApproveCommand, who: Principal, before: Memory, after: Memory,
                          policyVersion: string, now: string): ReceiptPayload
  {
    var action := match after.status
                  case Approved => MEMORY_APPROVED
                  case Returned => MEMORY_RETURNED
                  case _ => MEMORY_REJECTED;
    var version := if after.status == Approved then RECEIPT_PAYLOAD_VERSION else RECEIPT_PAYLOAD_VERSION_V10;
    BasePayload(MEMORY_SUBJECT, before.id, action, ScopeOf(before.scope), Snapshot(p, who), policyVersion, now).(
      version := version,
      reviewedEnvelopeHash := Envelope(p, before),
      resultingEnvelopeHash := Envelope(p, after),
      reason := c.reason)
  }

  /** The final block of a decision on a pending row, without its ledgers: row, log and receipt. */
  function Decide(p: Primitives, s: State, at: nat, to: Status, c: ApproveCommand, who: Principal,
                  policyVersion: string, now: string): State
    requires at < |s.memories| && s.memories[at].status == PendingReview
  {
    var before := s.memories[at];
    Emit(p, LoggedMove(p, s, at, to, who.subjectId, Human, now),
         DecidedPayload(p, c, who, before, WithStatus(p, before, to), policyVersion, now))
  }

  function Completed(p: Primitives, c: ApproveCommand, who: Principal, e: DecisionEvent): Reservation {
    Reservation(CommandHash(p, c), who.subjectId, who.membershipId, Some(ResultFor(e, who)))
  }

  function LogApproval(p: Primitives, s: State, c: ApproveCommand, who: Principal, e: DecisionEvent): State {
    s.(approvals := s.approvals + [e],
       approvalLedger := s.approvalLedger[LedgerKey(who.tenantId, c.requestId) := Completed(p, c, who, e)])
  }

  function LogReview(p: Primitives, s: State, c: ApproveCommand, who: Principal, e: DecisionEvent): State {
    s.(decisions := s.decisions + [e],
       reviewLedger := s.reviewLedger[LedgerKey(who.tenantId, c.requestId) := Completed(p, c, who, e)])
  }

  /** An approval that passed every check: row, log, receipt, event and completed reservation. */
  function CommitApproval(p: Primitives, s: State, at: nat, c: ApproveCommand, who: Principal, policyVersion: string,
                          eventId: string, now: string): (State, Result<DecisionResult>)
    requires at < |s.memories| && s.memories[at].scope.Company? && s.memories[at].status == PendingReview
  {
    var before := s.memories[at];
    var event := EventFor(p, c, who, before, WithStatus(p, before, Approved), policyVersion, eventId, now);
    (LogApproval(p, Decide(p, s, at, Approved, c, who, policyVersion, now), c, who, event), Ok(ResultFor(event, who)))
  }

  /** A rejection or return that passed every check. */
  function CommitReview(p: Primitives, s: State, at: nat, c: ApproveCommand, who: Principal, d: Decision,
                        eventId: string, now: string): (State, Result<DecisionResult>)
    requires at < |s.memories| && s.memories[at].scope.Company? && s.memories[at].status == PendingReview
  {
    var before := s.memories[at];
    var event := EventFor(p, c, who, before, WithStatus(p, before, StatusOf(d)), KERNEL_POLICY_VERSION, eventId, now);
    (LogReview(p, Decide(p, s, at, StatusOf(d), c, who, KERNEL_POLICY_VERSION, now), c, who, event),
     Ok(ResultFor(event, who)))
  }

  function ApproveStep(p: Primitives, s: State, c: ApproveCommand, who: Principal, policy: ApprovalPolicy,
                       eventId: string, now: string): (State, Result<DecisionResult>)
  {
    if Blank(c.reason) then (s, Err(ReasonRequired))
    else if Blank(c.memoryId) || Blank(c.expectedEnvelopeHash) || Blank(c.requestId) then (s, Err(MemoryNotFound))
    else
      var key := LedgerKey(who.tenantId, c.requestId);
      if key in s.approvalLedger && !Binds(s.approvalLedger[key], CommandHash(p, c), who) then (s, Err(IdempotencyConflict))
      else if key in s.approvalLedger && s.approvalLedger[key].result.Some? then
        (s, Ok(s.approvalLedger[key].result.value.(idempotentReplay := true)))
      else
        var check := ApprovalCheck(p, s, c, who, policy);
        if check.Err? then (s, Err(check.code))
        else
          CommitApproval(p, s, check.value.0, c, who, check.value.1, eventId, now)
  }

  /** rejectMemory and returnMemory: one core, one ledger and one command hash. Each wrapper
      stamps its own status on the result it hands out, a replayed one included. */
  function ReviewStep(p: Primitives, s: State, c: ApproveCommand, who: Principal, d: Decision,
                      eventId: string, now: string): (State, Result<DecisionResult>)
  {
    if Blank(c.memoryId) || Blank(c.expectedEnvelopeHash) || Blank(c.requestId) then (s, Err(MemoryNotFound))
    else
      var key := LedgerKey(who.tenantId, c.requestId);
      if key in s.reviewLedger then
        if Binds(s.reviewLedger[key], CommandHash(p, c), who) && s.reviewLedger[key].result.Some?
        then (s, Ok(s.reviewLedger[key].result.value.(currentStatus := StatusOf(d), idempotentReplay := true)))
        else (s, Err(IdempotencyConflict))
      else
        var check := ReviewCheck(p, s, c, who, d);
        if check.Err? then (s, Err(check.code))
        else
          CommitReview(p, s, check.value, c, who, d, eventId, now)
  }
}
