/** The judgment operations of the store as functions on its state. */
module JudgmentModel {
  import opened Text
  import opened Records
  import opened StoreModel

  datatype ProposeCommand = ProposeCommand(
    fromId: string, toId: string, relation: MemoryRelation, reason: string, requestId: string, predecessorId: string)

  /** confirmJudgment carries a resolution, rejectJudgment a reason; both are stored as the resolution. */
  datatype AdjudicateCommand = AdjudicateCommand(
    judgmentId: string, resolution: string, expectedJudgmentHash: string, requestId: string)

  type JudgmentPolicy = (Principal, Judgment) -> PolicyDecision

  /** What every judgment operation answers: the row, its event (none for a proposal) and the replay flag. */
  datatype JudgmentAnswer = JudgmentAnswer(judgment: Judgment, eventId: Option<string>, idempotentReplay: bool)

  predicate IsProposable(r: MemoryRelation) {
    r == Supports || r == Contradicts || r == Explains || r == Reconciles || r == Reverses || r == Supersedes
  }

  predicate CanPropose(caller: Source) {
    caller.actorKind == Agent || caller.actorKind == System
  }

  function ProposeHash(p: Primitives, c: ProposeCommand): string {
    p.commandHash([c.fromId, c.toId, p.relationName(c.relation), c.reason, c.predecessorId])
  }

  function AdjudicateHash(p: Primitives, c: AdjudicateCommand): string {
    p.commandHash([c.judgmentId, p.lower(c.expectedJudgmentHash), c.resolution])
  }

  function FindJudgment(js: seq<Judgment>, id: string): (at: int)
    ensures -1 <= at < |js|
    ensures at >= 0 ==> js[at].id == id
    ensures at < 0 ==> forall i | 0 <= i < |js| :: js[i].id != id
  {
    if js == [] then -1
    else if js[|js| - 1].id == id then |js| - 1
    else FindJudgment(js[..|js| - 1], id)
  }

  predicate BoundTo(r: JudgmentReservation, commandHash: string, binding: string) {
    r.commandHash == commandHash && r.binding == binding
  }

  datatype Tuple = Tuple(tenantId: string, companyId: string, fromId: string, toId: string, relation: MemoryRelation)

  function TupleOf(j: Judgment): Tuple {
    Tuple(j.tenantId, j.companyId, j.fromId, j.toId, j.relation)
  }

  function JudgmentScope(j: Judgment): SubjectScope {
    SubjectScope(j.tenantId, j.companyId, j.fiscalPeriodId)
  }

  predicate OpenFor(j: Judgment, t: Tuple) {
    TupleOf(j) == t && j.status == Proposed
  }

  /** The first open proposal of a tuple, in insertion order, or -1. */
  function OpenAt(js: seq<Judgment>, t: Tuple): (at: int)
    ensures -1 <= at < |js|
    ensures at >= 0 ==> OpenFor(js[at], t)
    ensures forall i | 0 <= i < (if at < 0 then |js| else at) :: !OpenFor(js[i], t)
  {
    if js == [] then -1
    else
      var earlier := OpenAt(js[..|js| - 1], t);
      if earlier >= 0 then earlier
      else if OpenFor(js[|js| - 1], t) then |js| - 1
      else -1
  }

  // ----------------------------------------------------------------- propose

  predicate IncompleteProposal(c: ProposeCommand) {
    Blank(c.fromId) || Blank(c.toId) || Blank(c.reason) || Blank(c.requestId)
  }

  /** The checks before the ledger; the tuple and the shared fiscal period. */
  function ProposalScope(s: State, c: ProposeCommand, caller: Source): (r: Result<(Tuple, string)>)
    ensures r.Ok? ==> r.value.0.fromId == c.fromId && r.value.0.toId == c.toId && r.value.0.relation == c.relation
    ensures r.Ok? ==> FindMemory(s.memories, c.fromId) >= 0 && FindMemory(s.memories, c.toId) >= 0
  {
    if IncompleteProposal(c) then Err(MemoryNotFound)
    else if !IsProposable(c.relation) then Err(RelationNotProposable)
    else if !CanPropose(caller) then Err(ProposalUnauthorized)
    else if c.fromId == c.toId then Err(MemoryNotFound)
    else
      var fromAt, toAt := FindMemory(s.memories, c.fromId), FindMemory(s.memories, c.toId);
      if fromAt < 0 || toAt < 0 then Err(MemoryNotFound)
      else
        var from, to := s.memories[fromAt].scope, s.memories[toAt].scope;
        if !from.Company? || !to.Company? then Err(CompanyScopeDenied)
        else if from.organizationId != to.organizationId then Err(TenantScopeMismatch)
        else if from.companyId != to.companyId then Err(CompanyScopeDenied)
        else Ok((Tuple(from.organizationId, from.companyId, c.fromId, c.toId, c.relation),
                 if from.period == to.period then from.period else ""))
  }

  /** The predecessor that the proposal supersedes at once, "" when there is none to supersede yet. */
  function PredecessorCheck(p: Primitives, s: State, c: ProposeCommand, caller: Source): (r: Result<string>)
    ensures r.Ok? && r.value != "" ==>
      && r.value == c.predecessorId && FindJudgment(s.judgments, r.value) >= 0
      && s.judgments[FindJudgment(s.judgments, r.value)].status == Proposed
    ensures r.Ok? && c.predecessorId != "" ==>
      var at := FindJudgment(s.judgments, c.predecessorId);
      && at >= 0 && s.judgments[at].fromId == c.fromId && s.judgments[at].toId == c.toId
      && s.judgments[at].relation == c.relation
  {
    if c.predecessorId == "" then Ok("")
    else
      var at := FindJudgment(s.judgments, c.predecessorId);
      if at < 0 then Err(JudgmentNotFound)
      else
        var pred := s.judgments[at];
        if pred.fromId != c.fromId || pred.toId != c.toId || pred.relation != c.relation then Err(JudgmentConflict)
        else match pred.status
             case Confirmed => Ok("")
             case Proposed =>
               if p.proposerBinding(pred.proposer) != p.proposerBinding(caller) then Err(ProposalUnauthorized) else Ok(pred.id)
             case _ => Err(InvalidJudgmentTransition)
  }

  function NewJudgment(t: Tuple, period: string, c: ProposeCommand, caller: Source, id: string, now: string): Judgment {
    Judgment(id, t.tenantId, t.companyId, period, t.fromId, t.toId, t.relation, Proposed, caller,
             c.reason, "", None, "", c.predecessorId, "", now, now, "")
  }

  /** The proposals after the new row entered and its proposed predecessor, if any, gave way. */
  function WithProposal(js: seq<Judgment>, j: Judgment, replacedId: string, now: string): seq<Judgment> {
    var at := FindJudgment(js, replacedId);
    if replacedId == "" || at < 0 then js + [j]
    else js[at := js[at].(status := Replaced, supersedesId := j.id, decidedAt := now, updatedAt := now)] + [j]
  }

  /** A proposal that passed every check: the row, the predecessor that gives way and the completed reservation. */
  function CommitProposal(p: Primitives, s: State, c: ProposeCommand, caller: Source, j: Judgment, replaced: string,
                          now: string): (State, Result<JudgmentAnswer>)
  {
    (s.(judgments := WithProposal(s.judgments, j, replaced, now),
        judgmentRelations :=
          if replaced == "" then s.judgmentRelations
          else s.judgmentRelations + [Relation(replaced, j.id, Supersedes, p.proposerBinding(caller), now)],
        judgmentLedger := s.judgmentLedger[LedgerKey(j.tenantId, c.requestId) :=
          JudgmentReservation(ProposeHash(p, c), p.proposerBinding(caller), j.id, None, true)]),
     Ok(JudgmentAnswer(j, None, false)))
  }

  /** The checks of a proposal after its ledger: the proposed predecessor that gives way, "" for none. */
  function ProposalCheck(p: Primitives, s: State, c: ProposeCommand, caller: Source, tuple: Tuple): Result<string> {
    var replaced := PredecessorCheck(p, s, c, caller);
    if replaced.Err? then replaced
    else
      var open := OpenAt(s.judgments, tuple);
      if open >= 0 && s.judgments[open].id != replaced.value then Err(JudgmentConflict) else replaced
  }

  /** The answer to a repeated proposal: its own row, or the open proposal of its tuple. */
  function ReplayedProposal(s: State, r: JudgmentReservation, tuple: Tuple): Result<JudgmentAnswer> {
    var at, open := FindJudgment(s.judgments, r.judgmentId), OpenAt(s.judgments, tuple);
    if at >= 0 then Ok(JudgmentAnswer(s.judgments[at], None, true))
    else if open >= 0 then Ok(JudgmentAnswer(s.judgments[open], None, true))
    else Err(JudgmentNotFound)
  }

  function ProposeStep(p: Primitives, s: State, c: ProposeCommand, caller: Source, id: string,
                       now: string): (State, Result<JudgmentAnswer>)
  {
    var scope := ProposalScope(s, c, caller);
    if scope.Err? then (s, Err(scope.code))
    else
      var (tuple, period) := scope.value;
      var key := LedgerKey(tuple.tenantId, c.requestId);
      if key in s.judgmentLedger && !BoundTo(s.judgmentLedger[key], ProposeHash(p, c), p.proposerBinding(caller)) then
        (s, Err(IdempotencyConflict))
      else if key in s.judgmentLedger && s.judgmentLedger[key].completed then
        (s, ReplayedProposal(s, s.judgmentLedger[key], tuple))
      else
        var check := ProposalCheck(p, s, c, caller, tuple);
        if check.Err? then (s, Err(check.code))
        else CommitProposal(p, s, c, caller, NewJudgment(tuple, period, c, caller, id, now), check.value, now)
  }

  // -------------------------------------------------------------- adjudicate

  datatype Verdict = Confirm | Decline

  function Adjudicated(p: Primitives, j: Judgment, v: Verdict, c: AdjudicateCommand, who: Principal,
                       policyVersion: string, now: string): Judgment
  {
    j.(status := if v.Confirm? then Confirmed else Declined, resolution := c.resolution,
       adjudicator := Some(Snapshot(p, who)), policyVersion := policyVersion, decidedAt := now, updatedAt := now)
  }

  /** The confirmed predecessor that a confirmation supersedes: its position, -1 when there is none. */
  function SupersedeCheck(s: State, j: Judgment): (r: Result<int>)
    ensures r.Ok? ==> -1 <= r.value < |s.judgments|
    ensures r.Ok? && r.value >= 0 ==>
      s.judgments[r.value].id == j.predecessorId && s.judgments[r.value].status == Confirmed
  {
    if j.predecessorId == "" then Ok(-1)
    else
      var at := FindJudgment(s.judgments, j.predecessorId);
      if at < 0 then Err(JudgmentNotFound)
      else match s.judgments[at].status
           case Confirmed => Ok(at)
           case Replaced => if s.judgments[at].supersedesId != j.id then Err(InvalidJudgmentTransition) else Ok(-1)
           case _ => Err(InvalidJudgmentTransition)
  }

  /** Every check after the ledger: the row, the frozen policy version and the predecessor to supersede. */
  function AdjudicationCheck(p: Primitives, s: State, v: Verdict, c: AdjudicateCommand, who: Principal,
                             policy: JudgmentPolicy): (r: Result<(nat, string, int)>)
    ensures r.Ok? ==> r.value.0 < |s.judgments| && s.judgments[r.value.0].id == c.judgmentId
    ensures r.Ok? ==> s.judgments[r.value.0].status == Proposed && -1 <= r.value.2 < |s.judgments|
    ensures r.Ok? && r.value.2 >= 0 ==> v.Confirm?
    ensures r.Ok? && r.value.2 >= 0 ==> s.judgments[r.value.2].status == Confirmed
    ensures r.Ok? && r.value.2 >= 0 ==> s.judgments[r.value.2].id == s.judgments[r.value.0].predecessorId
  {
    var at := FindJudgment(s.judgments, c.judgmentId);
    if at < 0 then Err(JudgmentNotFound)
    else
      var j := s.judgments[at];
      if j.status != Proposed then Err(InvalidJudgmentTransition)
      else if p.normalize(c.expectedJudgmentHash) != p.lower(p.judgmentHash(j)) then Err(JudgmentHashMismatch)
      else
        var decision := policy(who, j);
        if !decision.allowed then Err(PolicyDenied(decision.reasonCode))
        else if v.Decline? then Ok((at, decision.policyVersion, -1))
        else
          var pred := SupersedeCheck(s, j);
          if pred.Err? then Err(pred.code) else Ok((at, decision.policyVersion, pred.value))
  }

  function WithRelation(relations: seq<Relation>, r: Relation): seq<Relation> {
    if exists i | 0 <= i < |relations| ::
      relations[i].fromId == r.fromId && relations[i].toId == r.toId && relations[i].relation == r.relation
    then relations
    else relations + [r]
  }

  function EnvelopeOf(p: Primitives, ms: seq<Memory>, id: string): string {
    var at := FindMemory(ms, id);
    if at < 0 then "" else Envelope(p, ms[at])
  }

  function AdjudicatedPayload(p: Primitives, ms: seq<Memory>, before: Judgment, after: Judgment, who: Principal,
                              now: string): ReceiptPayload
  {
    BasePayload(JUDGMENT_SUBJECT, before.id, if after.status == Confirmed then RELATION_CONFIRMED else RELATION_REJECTED,
                JudgmentScope(before), Snapshot(p, who),
                after.policyVersion, now).(
      reviewedJudgmentHash := p.judgmentHash(before),
      resultingJudgmentHash := p.judgmentHash(after),
      fromMemoryId := before.fromId,
      fromEnvelopeHash := EnvelopeOf(p, ms, before.fromId),
      toMemoryId := before.toId,
      toEnvelopeHash := EnvelopeOf(p, ms, before.toId),
      reason := after.resolution)
  }

  /** The rows after the verdict; `pred` is the confirmed predecessor that gives way, or -1. */
  function WithVerdict(js: seq<Judgment>, at: nat, after: Judgment, pred: int, now: string): seq<Judgment>
    requires at < |js| && pred < |js|
  {
    var decided := js[at := after];
    if pred < 0 then decided
    else decided[pred := decided[pred].(status := Replaced, supersedesId := after.id, updatedAt := now)]
  }

  /** The event of a decision. */
  function DecisionRecord(p: Primitives, before: Judgment, after: Judgment, requestId: string, eventId: string,
                          now: string): JudgmentEvent
  {
    JudgmentEvent(eventId, requestId, before.id, before.tenantId,
                  if after.status == Confirmed then ConfirmAction else RejectAction, Proposed, after.status,
                  p.judgmentHash(after), after.adjudicator, after.policyVersion, after.resolution, now)
  }

  /** The event of a predecessor that gave way: `replaced` is the row afterwards. */
  function SupersessionRecord(p: Primitives, replaced: Judgment, next: Judgment, requestId: string, eventId: string,
                              now: string): JudgmentEvent
  {
    JudgmentEvent(eventId, requestId, replaced.id, replaced.tenantId, SupersedeAction, Confirmed, Replaced,
                  p.judgmentHash(replaced), None, "", next.resolution, now)
  }

  function WithdrawalRecord(p: Primitives, after: Judgment, requestId: string, eventId: string, now: string): JudgmentEvent {
    JudgmentEvent(eventId, requestId, after.id, after.tenantId, WithdrawAction, Proposed, Withdrawn,
                  p.judgmentHash(after), None, "", "", now)
  }

  /** The events of a verdict: the decision, then the supersession of the predecessor. */
  function VerdictEvents(p: Primitives, before: Judgment, after: Judgment, pred: Option<Judgment>, requestId: string,
                         eventId: string, supersedeEventId: string, now: string): seq<JudgmentEvent>
  {
    [DecisionRecord(p, before, after, requestId, eventId, now)] +
    (if pred.None? then []
     else
       var replaced := pred.value.(status := Replaced, supersedesId := before.id, updatedAt := now);
       [SupersessionRecord(p, replaced, after, requestId, supersedeEventId, now)])
  }

  /** The rows, events and relations of a verdict, before its receipt is signed. */
  function VerdictState(p: Primitives, s: State, v: Verdict, at: nat, after: Judgment, pred: int, who: Principal,
                        requestId: string, eventId: string, supersedeEventId: string, now: string): State
    requires at < |s.judgments| && -1 <= pred < |s.judgments|
  {
    var before := s.judgments[at];
    var replaced := if pred < 0 then None else Some(s.judgments[pred]);
    s.(judgments := WithVerdict(s.judgments, at, after, pred, now),
       judgmentEvents := s.judgmentEvents + VerdictEvents(p, before, after, replaced, requestId, eventId, supersedeEventId, now),
       relations :=
         if v.Confirm? then WithRelation(s.relations, Relation(before.fromId, before.toId, before.relation, who.subjectId, now))
         else s.relations,
       judgmentRelations :=
         if pred < 0 then s.judgmentRelations
         else s.judgmentRelations + [Relation(s.judgments[pred].id, before.id, Supersedes, who.subjectId, now)])
  }

  /** A verdict step by step: the decided row, the relation, then the predecessor that gives way. */
  lemma VerdictInSteps(p: Primitives, s: State, v: Verdict, at: nat, after: Judgment, pred: int, who: Principal,
                       requestId: string, eventId: string, supersedeEventId: string, now: string)
    requires at < |s.judgments| && -1 <= pred < |s.judgments| && pred != at && after.id == s.judgments[at].id
    ensures
      var before := s.judgments[at];
      var decided := s.(
        judgments := s.judgments[at := after],
        judgmentEvents := s.judgmentEvents + [DecisionRecord(p, before, after, requestId, eventId, now)],
        relations :=
          if v.Confirm? then WithRelation(s.relations, Relation(before.fromId, before.toId, before.relation, who.subjectId, now))
          else s.relations);
      VerdictState(p, s, v, at, after, pred, who, requestId, eventId, supersedeEventId, now) ==
      if pred < 0 then decided else GivenWay(p, decided, pred, after, who.subjectId, requestId, supersedeEventId, now)
  {
  }

  /** The confirmed judgment at `pred` gave way to `next`: row, event and judgment relation. */
  function GivenWay(p: Primitives, s: State, pred: nat, next: Judgment, actor: string, requestId: string,
                    eventId: string, now: string): State
    requires pred < |s.judgments|
  {
    var was := s.judgments[pred];
    var replaced := was.(status := Replaced, supersedesId := next.id, updatedAt := now);
    s.(judgments := s.judgments[pred := replaced],
       judgmentEvents := s.judgmentEvents + [SupersessionRecord(p, replaced, next, requestId, eventId, now)],
       judgmentRelations := s.judgmentRelations + [Relation(was.id, next.id, Supersedes, actor, now)])
  }

  /** A verdict that passed every check: rows, events, relations, receipt and completed reservation. */
  function CommitVerdict(p: Primitives, s: State, v: Verdict, c: AdjudicateCommand, who: Principal, at: nat,
                         policyVersion: string, pred: int, eventId: string, supersedeEventId: string,
                         now: string): (State, Result<JudgmentAnswer>)
    requires at < |s.judgments| && -1 <= pred < |s.judgments|
  {
    var before := s.judgments[at];
    var after := Adjudicated(p, before, v, c, who, policyVersion, now);
    var decided := VerdictState(p, s, v, at, after, pred, who, c.requestId, eventId, supersedeEventId, now);
    (Emit(p, decided, AdjudicatedPayload(p, s.memories, before, after, who, now)).(
       judgmentLedger := s.judgmentLedger[LedgerKey(who.tenantId, c.requestId) :=
         JudgmentReservation(AdjudicateHash(p, c), who.subjectId, before.id, Some(eventId), true)]),
     Ok(JudgmentAnswer(after, Some(eventId), false)))
  }

  function AdjudicateStep(p: Primitives, s: State, v: Verdict, c: AdjudicateCommand, who: Principal,
                          policy: JudgmentPolicy, eventId: string, supersedeEventId: string,
                          now: string): (State, Result<JudgmentAnswer>)
  {
    if Blank(c.resolution) then (s, Err(ResolutionRequired))
    else if Blank(c.judgmentId) || Blank(c.expectedJudgmentHash) || Blank(c.requestId) then (s, Err(JudgmentNotFound))
    else
      var key := LedgerKey(who.tenantId, c.requestId);
      if key in s.judgmentLedger && !BoundTo(s.judgmentLedger[key], AdjudicateHash(p, c), who.subjectId) then
        (s, Err(IdempotencyConflict))
      else if key in s.judgmentLedger && s.judgmentLedger[key].completed && s.judgmentLedger[key].eventId.Some? then
        (s, Replayed(s, s.judgmentLedger[key]))
      else
        var check := AdjudicationCheck(p, s, v, c, who, policy);
        if check.Err? then (s, Err(check.code))
        else CommitVerdict(p, s, v, c, who, check.value.0, check.value.1, check.value.2, eventId, supersedeEventId, now)
  }

  /** The ledger lets a command through: the request is unused, or reserved for this command without an event. */
  predicate LedgerOpen(s: State, key: string, commandHash: string, binding: string) {
    key in s.judgmentLedger ==>
      BoundTo(s.judgmentLedger[key], commandHash, binding) &&
      !(s.judgmentLedger[key].completed && s.judgmentLedger[key].eventId.Some?)
  }

  /** The guards of an adjudication, as a caller can check them before the call. */
  predicate VerdictGuards(p: Primitives, s: State, v: Verdict, c: AdjudicateCommand, who: Principal, policy: JudgmentPolicy) {
    && !Blank(c.resolution) && !Blank(c.judgmentId) && !Blank(c.expectedJudgmentHash) && !Blank(c.requestId)
    && LedgerOpen(s, LedgerKey(who.tenantId, c.requestId), AdjudicateHash(p, c), who.subjectId)
    && AdjudicationCheck(p, s, v, c, who, policy).Ok?
  }

  /** An adjudication changes the store exactly when its guards hold. */
  lemma VerdictCommitsIff(p: Primitives, s: State, v: Verdict, c: AdjudicateCommand, who: Principal, policy: JudgmentPolicy,
                          eventId: string, supersedeEventId: string, now: string)
    ensures
      var after := AdjudicateStep(p, s, v, c, who, policy, eventId, supersedeEventId, now).0;
      && (after != s <==> VerdictGuards(p, s, v, c, who, policy))
      && (VerdictGuards(p, s, v, c, who, policy) ==>
            var (at, policyVersion, pred) := AdjudicationCheck(p, s, v, c, who, policy).value;
            AdjudicateStep(p, s, v, c, who, policy, eventId, supersedeEventId, now) ==
            CommitVerdict(p, s, v, c, who, at, policyVersion, pred, eventId, supersedeEventId, now))
  {
    hide AdjudicationCheck, VerdictState, AdjudicatedPayload, Emit, Adjudicated, LedgerKey;
    if VerdictGuards(p, s, v, c, who, policy) {
      var (at, policyVersion, pred) := AdjudicationCheck(p, s, v, c, who, policy).value;
      var key := LedgerKey(who.tenantId, c.requestId);
      var after := CommitVerdict(p, s, v, c, who, at, policyVersion, pred, eventId, supersedeEventId, now).0;
      assert after.judgmentLedger[key].completed && after.judgmentLedger[key].eventId.Some?;
    }
  }

  function Replayed(s: State, r: JudgmentReservation): Result<JudgmentAnswer> {
    var at := FindJudgment(s.judgments, r.judgmentId);
    if at < 0 then Err(JudgmentNotFound) else Ok(JudgmentAnswer(s.judgments[at], r.eventId, true))
  }

  // ---------------------------------------------------------------- withdraw

  /** A withdrawal that passed every check. */
  function CommitWithdrawal(p: Primitives, s: State, at: nat, requestId: string, caller: Source, eventId: string,
                            now: string): (State, Result<JudgmentAnswer>)
    requires at < |s.judgments|
  {
    var before := s.judgments[at];
    var after := before.(status := Withdrawn, decidedAt := now, updatedAt := now);
    (s.(judgments := s.judgments[at := after],
        judgmentEvents := s.judgmentEvents + [WithdrawalRecord(p, after, requestId, eventId, now)],
        judgmentLedger := s.judgmentLedger[LedgerKey(before.tenantId, requestId) :=
          JudgmentReservation(p.commandHash([before.id]), p.proposerBinding(caller), before.id, Some(eventId), true)]),
     Ok(JudgmentAnswer(after, Some(eventId), false)))
  }

  function WithdrawStep(p: Primitives, s: State, judgmentId: string, requestId: string, caller: Source,
                        eventId: string, now: string): (State, Result<JudgmentAnswer>)
  {
    if Blank(judgmentId) || Blank(requestId) then (s, Err(JudgmentNotFound))
    else if !CanPropose(caller) then (s, Err(ProposalUnauthorized))
    else
      var at := FindJudgment(s.judgments, judgmentId);
      if at < 0 then (s, Err(JudgmentNotFound))
      else
        var before := s.judgments[at];
        var key := LedgerKey(before.tenantId, requestId);
        var binding := p.proposerBinding(caller);
        if key in s.judgmentLedger && !BoundTo(s.judgmentLedger[key], p.commandHash([judgmentId]), binding) then
          (s, Err(IdempotencyConflict))
        else if key in s.judgmentLedger && s.judgmentLedger[key].completed && s.judgmentLedger[key].eventId.Some? then
          (s, Replayed(s, s.judgmentLedger[key]))
        else if before.status != Proposed then (s, Err(InvalidJudgmentTransition))
        else if p.proposerBinding(before.proposer) != binding then (s, Err(ProposalUnauthorized))
        else CommitWithdrawal(p, s, at, requestId, caller, eventId, now)
  }
}
