/** The human decisions of a run in the terms of the rows they are about: when a decision is recorded, what is
    recorded of it, and what stands in its way. */
module StoreDecisions {
  import opened Text
  import opened Records
  import opened StoreModel
  import opened JudgmentModel
  import opened RevisionChains
  import opened StatusLog
  import opened DecisionLedger
  import opened StoreInvariants
  import opened StoreSteps
  import opened JudgmentChains
  import opened StoreRuns
  import opened StoreRows
  import opened StoreJournal

  /** The principal's tenant and companies include the row's scope. */
  predicate Reaches(who: Principal, m: Memory) {
    m.scope.Company? && m.scope.organizationId == who.tenantId && m.scope.companyId in who.companyScopes
  }

  /** The row is pending, as the principal reviewed it, and its envelope shows the decision. */
  predicate Reviewed(p: Primitives, c: ApproveCommand, m: Memory, to: Status) {
    && m.id == c.memoryId && m.status == PendingReview
    && p.normalize(c.expectedEnvelopeHash) == p.lower(p.envelopeHash(ViewOf(m)))
    && p.envelopeHash(ViewOf(m.(status := to))) != p.envelopeHash(ViewOf(m))
  }

  /** The row that an approval command may decide. */
  predicate MayApprove(p: Primitives, c: ApproveCommand, who: Principal, policy: ApprovalPolicy, m: Memory) {
    Reviewed(p, c, m, Approved) && Reaches(who, m) && policy(who, m).allowed
  }

  /** Material rows, and those with the heaviest effects, are never turned down without a reason. */
  predicate NeedsReason(m: Memory, to: Status) {
    || to == Returned
    || m.materialityLevel in {Material, Critical} || m.fiscalEffect in {Closing, Declaration, SunatFiling}
  }

  /** The row that a rejection or a return may decide: never one of the principal's own. */
  predicate MayTurnDown(p: Primitives, c: ApproveCommand, who: Principal, to: Status, m: Memory) {
    && Reviewed(p, c, m, to) && Reaches(who, m)
    && (m.source.actorId == "" || m.source.actorId != who.subjectId)
    && (NeedsReason(m, to) ==> !Blank(c.reason))
  }

  /** The event tells of a decision on row m as it was, by this principal. */
  predicate Tells(p: Primitives, e: DecisionEvent, c: ApproveCommand, who: Principal, m: Memory, to: Status,
                  policyVersion: string, eventId: string, now: string)
  {
    && e.id == eventId && e.requestId == c.requestId && e.memoryId == m.id && e.reason == c.reason
    && m.scope.Company? && e.tenantId == m.scope.organizationId && e.companyId == m.scope.companyId
    && e.toStatus == to && e.policyVersion == policyVersion && e.createdAt == now
    && e.reviewedEnvelopeHash == p.envelopeHash(ViewOf(m))
    && e.resultingEnvelopeHash == p.envelopeHash(ViewOf(m.(status := to)))
    && e.principal == PrincipalSnapshot(
         subjectId := who.subjectId, membershipId := who.membershipId, roles := p.canonicalRoles(who.roles),
         authenticationMethod := who.authenticationMethod, assuranceLevel := who.assuranceLevel,
         authenticatedAt := who.authenticatedAt)
  }

  /** The result hands out what the event says. */
  predicate Hands(e: DecisionEvent, r: DecisionResult) {
    && r.memoryId == e.memoryId && r.eventId == e.id && r.currentStatus == e.toStatus
    && r.reviewedEnvelopeHash == e.reviewedEnvelopeHash && r.resultingEnvelopeHash == e.resultingEnvelopeHash
    && r.reason == e.reason && r.principalSubjectId == e.principal.subjectId && r.membershipId == e.principal.membershipId
    && r.policyVersion == e.policyVersion && r.decidedAt == e.createdAt && !r.idempotentReplay
  }

  // ---------------------------------------------------------------- one decision

  predicate Complete(c: ApproveCommand) {
    !Blank(c.memoryId) && !Blank(c.expectedEnvelopeHash) && !Blank(c.requestId)
  }

  lemma FoundById(ms: seq<Memory>, m: Memory)
    requires DistinctIds(ms) && m in ms
    ensures FindMemory(ms, m.id) >= 0 && ms[FindMemory(ms, m.id)] == m
  {
    var i :| 0 <= i < |ms| && ms[i] == m;
    FindMemoryAt(ms, i);
  }

  lemma ApprovalCheckIff(p: Primitives, s: State, c: ApproveCommand, who: Principal, policy: ApprovalPolicy)
    requires DistinctIds(s.memories)
    ensures ApprovalCheck(p, s, c, who, policy).Ok? <==> exists m | m in s.memories :: MayApprove(p, c, who, policy, m)
    ensures ApprovalCheck(p, s, c, who, policy).Ok? ==>
              var (at, policyVersion) := ApprovalCheck(p, s, c, who, policy).value;
              MayApprove(p, c, who, policy, s.memories[at]) && policyVersion == policy(who, s.memories[at]).policyVersion
  {
    if m :| m in s.memories && MayApprove(p, c, who, policy, m) {
      FoundById(s.memories, m);
    }
    var check := ApprovalCheck(p, s, c, who, policy);
    assert check.Ok? ==> MayApprove(p, c, who, policy, s.memories[check.value.0]);
  }

  lemma ReviewCheckIff(p: Primitives, s: State, c: ApproveCommand, who: Principal, d: Decision, to: Status)
    requires DistinctIds(s.memories) && to == (if d.Reject? then Rejected else Returned)
    ensures ReviewCheck(p, s, c, who, d).Ok? <==> exists m | m in s.memories :: MayTurnDown(p, c, who, to, m)
    ensures ReviewCheck(p, s, c, who, d).Ok? ==> MayTurnDown(p, c, who, to, s.memories[ReviewCheck(p, s, c, who, d).value])
  {
    if m :| m in s.memories && MayTurnDown(p, c, who, to, m) {
      FoundById(s.memories, m);
    }
    var check := ReviewCheck(p, s, c, who, d);
    assert check.Ok? ==> MayTurnDown(p, c, who, to, s.memories[check.value]);
  }

  /** What the invariants of a reachable store give a decision to work with. */
  lemma DecidableStore(p: Primitives, s: State, key: string)
    requires Inv(p, s)
    ensures DistinctIds(s.memories)
    ensures key in s.approvalLedger ==> s.approvalLedger[key].result.Some?
    ensures key in s.reviewLedger ==> s.reviewLedger[key].result.Some?
  {
    ReservationsAreComplete(s, key);
  }

  /** An approval is recorded exactly for a given reason, under an unused request, about a stored row that the command
      may approve; nothing else changes the store. */
  lemma ApprovesIff(p: Primitives, s: State, c: ApproveCommand, who: Principal, policy: ApprovalPolicy,
                    eventId: string, now: string)
    requires Inv(p, s)
    ensures
      var after := ApproveStep(p, s, c, who, policy, eventId, now).0;
      var approves := !Blank(c.reason) && Complete(c) && JoinNul([who.tenantId, c.requestId]) !in s.approvalLedger &&
                      exists m | m in s.memories :: MayApprove(p, c, who, policy, m);
      (|after.approvals| == |s.approvals| + 1 <==> approves) && (after == s <==> !approves)
  {
    hide ApprovalCheck, MayApprove, CommitApproval, CommandHash, Inv, Blank;
    DecidableStore(p, s, LedgerKey(who.tenantId, c.requestId));
    ApprovalCheckIff(p, s, c, who, policy);
    if ApprovalCheck(p, s, c, who, policy).Ok? {
      ApprovalGrows(p, s, c, who, policy, eventId, now);
    }
  }

  /** What an approval that passed its checks records. */
  lemma ApprovalGrows(p: Primitives, s: State, c: ApproveCommand, who: Principal, policy: ApprovalPolicy,
                      eventId: string, now: string)
    requires ApprovalCheck(p, s, c, who, policy).Ok?
    ensures
      var (at, policyVersion) := ApprovalCheck(p, s, c, who, policy).value;
      var (after, result) := CommitApproval(p, s, at, c, who, policyVersion, eventId, now);
      && |after.approvals| == |s.approvals| + 1 && after.approvals[..|s.approvals|] == s.approvals
      && Tells(p, after.approvals[|s.approvals|], c, who, s.memories[at], Approved, policyVersion, eventId, now)
      && result.Ok? && Hands(after.approvals[|s.approvals|], result.value)
      && after.decisions == s.decisions
  {
    hide ApprovalCheck, Decide;
    var (at, policyVersion) := ApprovalCheck(p, s, c, who, policy).value;
    var d := DecideWrites(p, s, at, Approved, c, who, policyVersion, now);
  }

  lemma ReviewGrows(p: Primitives, s: State, c: ApproveCommand, who: Principal, d: Decision, eventId: string, now: string)
    requires ReviewCheck(p, s, c, who, d).Ok?
    ensures
      var at := ReviewCheck(p, s, c, who, d).value;
      var (after, result) := CommitReview(p, s, at, c, who, d, eventId, now);
      && |after.decisions| == |s.decisions| + 1 && after.decisions[..|s.decisions|] == s.decisions
      && Tells(p, after.decisions[|s.decisions|], c, who, s.memories[at], if d.Reject? then Rejected else Returned,
               "kernel/v0.4.0", eventId, now)
      && result.Ok? && Hands(after.decisions[|s.decisions|], result.value)
      && after.approvals == s.approvals
  {
    hide ReviewCheck, Decide;
    var at := ReviewCheck(p, s, c, who, d).value;
    var e := DecideWrites(p, s, at, StatusOf(d), c, who, KERNEL_POLICY_VERSION, now);
  }

  /** A rejection or a return is recorded exactly under an unused request, about a stored row that the command may turn
      down; nothing else changes the store. */
  lemma TurnsDownIff(p: Primitives, s: State, c: ApproveCommand, who: Principal, d: Decision, eventId: string, now: string)
    requires Inv(p, s)
    ensures
      var after, to := ReviewStep(p, s, c, who, d, eventId, now).0, if d.Reject? then Rejected else Returned;
      var turnsDown := Complete(c) && JoinNul([who.tenantId, c.requestId]) !in s.reviewLedger &&
                       exists m | m in s.memories :: MayTurnDown(p, c, who, to, m);
      (|after.decisions| == |s.decisions| + 1 <==> turnsDown) && (after == s <==> !turnsDown)
  {
    hide ReviewCheck, MayTurnDown, CommitReview, CommandHash, Inv, Blank;
    DecidableStore(p, s, LedgerKey(who.tenantId, c.requestId));
    ReviewCheckIff(p, s, c, who, d, if d.Reject? then Rejected else Returned);
    if ReviewCheck(p, s, c, who, d).Ok? {
      ReviewGrows(p, s, c, who, d, eventId, now);
    }
  }

  // -------------------------------------------------------------------- refusals

  /** The code of a refused decision names a guard that the row found under its id fails. */
  predicate RowExplains(p: Primitives, code: ErrorCode, c: ApproveCommand, who: Principal, to: Status, m: Memory) {
    match code
    case CompanyScopeDenied => m.scope.Institutional? || m.scope.companyId !in who.companyScopes
    case TenantScopeMismatch => m.scope.Company? && m.scope.organizationId != who.tenantId
    case AlreadyDecided => m.status in {Approved, Rejected} || (to != Approved && m.status == Returned)
    case InvalidTransition =>
      || m.status in {Active, Superseded, Voided} || (to == Approved && m.status == Returned)
      || (m.status == PendingReview && p.envelopeHash(ViewOf(m.(status := to))) == p.envelopeHash(ViewOf(m)))
    case EnvelopeMismatch =>
      m.status == PendingReview && Reaches(who, m) && p.normalize(c.expectedEnvelopeHash) != p.lower(p.envelopeHash(ViewOf(m)))
    case SodViolation =>
      to != Approved && m.status == PendingReview && Reaches(who, m) && m.source.actorId == who.subjectId != ""
    case ReasonRequired => to != Approved && m.status == PendingReview && Reaches(who, m) && NeedsReason(m, to) && Blank(c.reason)
    case _ => false
  }

  /** A refused approval says why. */
  lemma ApprovalRefusals(p: Primitives, s: State, c: ApproveCommand, who: Principal, policy: ApprovalPolicy,
                         eventId: string, now: string)
    requires Inv(p, s) && ApproveStep(p, s, c, who, policy, eventId, now).1.Err?
    ensures
      var code, key := ApproveStep(p, s, c, who, policy, eventId, now).1.code, JoinNul([who.tenantId, c.requestId]);
      || (code == ReasonRequired && Blank(c.reason))
      || (code == MemoryNotFound && (!Complete(c) || forall m | m in s.memories :: m.id != c.memoryId))
      || (code == IdempotencyConflict && key in s.approvalLedger &&
          var r := s.approvalLedger[key];
          r.commandHash != p.commandHash([c.memoryId, p.lower(c.expectedEnvelopeHash), c.reason]) ||
          r.principalSubjectId != who.subjectId || r.membershipId != who.membershipId)
      || exists m | m in s.memories && m.id == c.memoryId ::
           || RowExplains(p, code, c, who, Approved, m)
           || (m.status == PendingReview && Reaches(who, m) && !policy(who, m).allowed &&
               code == PolicyDenied(policy(who, m).reasonCode))
  {
    hide Blank, Inv;
    DecidableStore(p, s, LedgerKey(who.tenantId, c.requestId));
    var at := FindMemory(s.memories, c.memoryId);
    if at >= 0 {
      assert s.memories[at] in s.memories;
    }
  }

  /** A refused rejection or return says why. */
  lemma ReviewRefusals(p: Primitives, s: State, c: ApproveCommand, who: Principal, d: Decision, eventId: string, now: string)
    requires Inv(p, s) && ReviewStep(p, s, c, who, d, eventId, now).1.Err?
    ensures
      var code, key := ReviewStep(p, s, c, who, d, eventId, now).1.code, JoinNul([who.tenantId, c.requestId]);
      || (code == MemoryNotFound && (!Complete(c) || forall m | m in s.memories :: m.id != c.memoryId))
      || (code == IdempotencyConflict && key in s.reviewLedger &&
          var r := s.reviewLedger[key];
          r.commandHash != p.commandHash([c.memoryId, p.lower(c.expectedEnvelopeHash), c.reason]) ||
          r.principalSubjectId != who.subjectId || r.membershipId != who.membershipId)
      || exists m | m in s.memories && m.id == c.memoryId ::
           RowExplains(p, code, c, who, if d.Reject? then Rejected else Returned, m)
  {
    hide Blank, Inv;
    DecidableStore(p, s, LedgerKey(who.tenantId, c.requestId));
    var at := FindMemory(s.memories, c.memoryId);
    if at >= 0 {
      assert s.memories[at] in s.memories;
    }
  }

  // ------------------------------------------------------------------------ runs

  /** Operations that are no decisions record none. */
  lemma OthersRecordNone(p: Primitives, s: State, op: Op)
    ensures !op.Approve? ==> Step(p, s, op).approvals == s.approvals
    ensures !op.Review? ==> Step(p, s, op).decisions == s.decisions
  {
    hide SaveState, GateStep, LinkStep, ApprovalCheck, ReviewCheck, CommitApproval, CommitReview, LedgerKey;
    var after := Step(p, s, op);
    if !MemoryOp(op) {
      var d := JudgmentOpWrites(p, s, op);
    } else {
      match op
      case Save(input, id, now) =>
        if SaveRefusal(p, s, input, now).None? {
          var d := SaveWrites(p, s, RevisionFor(p, s, input, id, now), after);
        }
      case Gate(memoryId, to, actor, actorKind, now) => var d := GateWrites(p, s, memoryId, to, actor, actorKind, now, after);
      case Link(kind, memoryId, ref, actor, now) => var d := LinkWrites(p, s, kind, memoryId, ref, actor, now, after);
      case Approve(c, who, policy, eventId, now) =>
        if ApprovalCheck(p, s, c, who, policy).Ok? {
          ApprovalGrows(p, s, c, who, policy, eventId, now);
        }
      case Review(c, who, d, eventId, now) =>
        if ReviewCheck(p, s, c, who, d).Ok? {
          ReviewGrows(p, s, c, who, d, eventId, now);
        }
    }
  }

  /** The operation that wrote an approval event, in the store it found. */
  ghost predicate ApprovedBy(p: Primitives, s: State, op: Op, e: DecisionEvent, m: Memory) {
    && op.Approve? && m in s.memories && !Blank(op.command.reason) && Complete(op.command)
    && MayApprove(p, op.command, op.who, op.policy, m)
    && Tells(p, e, op.command, op.who, m, Approved, op.policy(op.who, m).policyVersion, op.eventId, op.now)
  }

  ghost predicate TurnedDownBy(p: Primitives, s: State, op: Op, e: DecisionEvent, m: Memory) {
    && op.Review? && m in s.memories && Complete(op.command)
    && (var to := if op.decision.Reject? then Rejected else Returned;
        MayTurnDown(p, op.command, op.who, to, m) && Tells(p, e, op.command, op.who, m, to, "kernel/v0.4.0", op.eventId, op.now))
  }

  lemma StepApproves(p: Primitives, s: State, op: Op) returns (m: Memory)
    requires Inv(p, s) && Step(p, s, op).approvals != s.approvals
    ensures
      var events := Step(p, s, op).approvals;
      |events| == |s.approvals| + 1 && events[..|s.approvals|] == s.approvals && ApprovedBy(p, s, op, events[|s.approvals|], m)
  {
    hide ApprovalCheck, MayApprove, CommitApproval, CommandHash, Inv, Blank, Tells, Hands;
    OthersRecordNone(p, s, op);
    var Approve(c, who, policy, eventId, now) := op;
    DecidableStore(p, s, LedgerKey(who.tenantId, c.requestId));
    ApprovalCheckIff(p, s, c, who, policy);
    var check := ApprovalCheck(p, s, c, who, policy);
    ApprovalGrows(p, s, c, who, policy, eventId, now);
    m := s.memories[check.value.0];
  }

  lemma StepTurnsDown(p: Primitives, s: State, op: Op) returns (m: Memory)
    requires Inv(p, s) && Step(p, s, op).decisions != s.decisions
    ensures
      var events := Step(p, s, op).decisions;
      |events| == |s.decisions| + 1 && events[..|s.decisions|] == s.decisions && TurnedDownBy(p, s, op, events[|s.decisions|], m)
  {
    hide ReviewCheck, MayTurnDown, CommitReview, CommandHash, Inv, Blank, Tells, Hands;
    OthersRecordNone(p, s, op);
    var Review(c, who, d, eventId, now) := op;
    DecidableStore(p, s, LedgerKey(who.tenantId, c.requestId));
    ReviewCheckIff(p, s, c, who, d, if d.Reject? then Rejected else Returned);
    ReviewGrows(p, s, c, who, d, eventId, now);
    m := s.memories[ReviewCheck(p, s, c, who, d).value];
  }

  /** Every approval event was written by one approval of the run, which the policy allowed for the row as it stood,
      and it carries that policy's version, that principal and that row's envelopes. */
  lemma {:induction false} ApprovalsWereAllowed(p: Primitives, ops: seq<Op>, k: nat) returns (n: nat, m: Memory)
    requires LegalRun(p, ops) && k < |Run(p, ops).approvals|
    ensures n < |ops| && |Run(p, ops[..n]).approvals| == k
    ensures ApprovedBy(p, Run(p, ops[..n]), ops[n], Run(p, ops).approvals[k], m)
  {
    hide ApprovedBy, Step, Inv, LegalOp;
    var shorter := ops[..|ops| - 1];
    var s := Run(p, shorter);
    RunKeepsInv(p, shorter);
    if Run(p, ops).approvals == s.approvals {
      n, m := ApprovalsWereAllowed(p, shorter, k);
      assert shorter[..n] == ops[..n];
    } else {
      m := StepApproves(p, s, ops[|ops| - 1]);
      assert Run(p, ops).approvals[..|s.approvals|] == s.approvals;
      if k < |s.approvals| {
        n, m := ApprovalsWereAllowed(p, shorter, k);
        assert shorter[..n] == ops[..n];
      } else {
        n := |ops| - 1;
      }
    }
  }

  /** Every rejection and return was written by one of the run's, about a row of someone else, with a reason where the
      row or the return calls for one. */
  lemma {:induction false} TurnDownsWereAllowed(p: Primitives, ops: seq<Op>, k: nat) returns (n: nat, m: Memory)
    requires LegalRun(p, ops) && k < |Run(p, ops).decisions|
    ensures n < |ops| && |Run(p, ops[..n]).decisions| == k
    ensures TurnedDownBy(p, Run(p, ops[..n]), ops[n], Run(p, ops).decisions[k], m)
  {
    hide TurnedDownBy, Step, Inv, LegalOp;
    var shorter := ops[..|ops| - 1];
    var s := Run(p, shorter);
    RunKeepsInv(p, shorter);
    if Run(p, ops).decisions == s.decisions {
      n, m := TurnDownsWereAllowed(p, shorter, k);
      assert shorter[..n] == ops[..n];
    } else {
      m := StepTurnsDown(p, s, ops[|ops| - 1]);
      assert Run(p, ops).decisions[..|s.decisions|] == s.decisions;
      if k < |s.decisions| {
        n, m := TurnDownsWereAllowed(p, shorter, k);
        assert shorter[..n] == ops[..n];
      } else {
        n := |ops| - 1;
      }
    }
  }
}
