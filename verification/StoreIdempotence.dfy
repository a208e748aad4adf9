/** Completed decisions answer every repetition the same way, however far the store has run since. */
module StoreIdempotence {
  import opened Text
  import opened Records
  import opened StoreModel
  import opened JudgmentModel
  import opened DecisionLedger
  import opened StoreInvariants
  import opened StoreSteps
  import opened StoreRuns

  // -------------------------------------------------------- ledgers only grow

  /** Reservations of both decision ledgers stay as they are. */
  ghost predicate LedgersKept(s: State, after: State) {
    && (forall key | key in s.approvalLedger :: key in after.approvalLedger && after.approvalLedger[key] == s.approvalLedger[key])
    && (forall key | key in s.reviewLedger :: key in after.reviewLedger && after.reviewLedger[key] == s.reviewLedger[key])
  }

  predicate SameLedgers(s: State, after: State) {
    after.approvalLedger == s.approvalLedger && after.reviewLedger == s.reviewLedger
  }

  lemma EmitKeepsLedgers(p: Primitives, s: State, payload: ReceiptPayload)
    ensures SameLedgers(s, Emit(p, s, payload))
  {
  }

  lemma SaveKeepsLedgers(p: Primitives, s: State, m: Memory, after: State)
    requires after == SaveState(p, s, m)
    ensures SameLedgers(s, after)
  {
    var at := LatestAt(p, s.memories, KeyOf(p, m));
    if at >= 0 && CanVoid(s.memories[at].status) {
      var prior := s.memories[at];
      var s2 := s.(memories := after.memories, relations := after.relations);
      var payload := SupersededPayload(p, prior, Replacing(prior, m), m);
      EmitKeepsLedgers(p, s2, payload);
      EmitKeepsLedgers(p, Emit(p, s2, payload), RecordedPayload(p, m));
    }
  }

  lemma GateKeepsLedgers(p: Primitives, s: State, memoryId: string, to: Status, actor: string, actorKind: ActorKind,
                         now: string, after: State)
    requires after == GateStep(p, s, memoryId, to, actor, actorKind, now).0
    ensures SameLedgers(s, after)
  {
    if after != s {
      var at := FindMemory(s.memories, memoryId);
      var before := s.memories[at];
      var m := WithStatus(p, before, to);
      var s1 := s.(memories := s.memories[at := m],
                   transitions := s.transitions + [Transition(memoryId, before.status, to, actor, actorKind, now)]);
      EmitKeepsLedgers(p, s1, TransitionPayload(p, before, m, actor, now));
    }
  }

  lemma LinkKeepsLedgers(p: Primitives, s: State, kind: LinkKind, memoryId: string, ref: string, actor: string,
                         now: string, after: State)
    requires after == LinkStep(p, s, kind, memoryId, ref, actor, now).0
    ensures SameLedgers(s, after)
  {
  }

  lemma DecideKeepsLedgers(p: Primitives, s: State, at: nat, to: Status, c: ApproveCommand, who: Principal,
                           policyVersion: string, now: string, decided: State)
    requires at < |s.memories| && s.memories[at].status == PendingReview && decided == Decide(p, s, at, to, c, who, policyVersion, now)
    ensures SameLedgers(s, decided)
  {
  }

  lemma CommitKeepsLedgers(p: Primitives, s: State, at: nat, c: ApproveCommand, who: Principal, policyVersion: string,
                           eventId: string, now: string, after: State)
    requires at < |s.memories| && s.memories[at].scope.Company? && s.memories[at].status == PendingReview
    requires LedgerKey(who.tenantId, c.requestId) !in s.approvalLedger
    requires after == CommitApproval(p, s, at, c, who, policyVersion, eventId, now).0
    ensures LedgersKept(s, after)
  {
    DecideKeepsLedgers(p, s, at, Approved, c, who, policyVersion, now, Decide(p, s, at, Approved, c, who, policyVersion, now));
  }

  /** An approval writes at most its own, still unused, reservation. */
  lemma ApproveKeepsLedgers(p: Primitives, s: State, c: ApproveCommand, who: Principal, policy: ApprovalPolicy,
                            eventId: string, now: string, after: State)
    requires DecisionPart(s) && after == ApproveStep(p, s, c, who, policy, eventId, now).0
    ensures LedgersKept(s, after)
  {
    var key := LedgerKey(who.tenantId, c.requestId);
    ReservationsAreComplete(s, key);
    var check := ApprovalCheck(p, s, c, who, policy);
    if after != s && check.Ok? {
      CommitKeepsLedgers(p, s, check.value.0, c, who, check.value.1, eventId, now, after);
    }
  }

  lemma ReviewKeepsLedgers(p: Primitives, s: State, c: ApproveCommand, who: Principal, d: Decision,
                           eventId: string, now: string, after: State)
    requires after == ReviewStep(p, s, c, who, d, eventId, now).0
    ensures LedgersKept(s, after)
  {
    var check := ReviewCheck(p, s, c, who, d);
    if after != s && check.Ok? {
      var decided := Decide(p, s, check.value, StatusOf(d), c, who, KERNEL_POLICY_VERSION, now);
      DecideKeepsLedgers(p, s, check.value, StatusOf(d), c, who, KERNEL_POLICY_VERSION, now, decided);
    }
  }

  lemma StepKeepsLedgers(p: Primitives, s: State, op: Op, after: State)
    requires Inv(p, s) && after == Step(p, s, op)
    ensures LedgersKept(s, after)
  {
    match op
    case Save(input, id, now) =>
      if SaveRefusal(p, s, input, now).None? {
        SaveKeepsLedgers(p, s, RevisionFor(p, s, input, id, now), after);
      }
    case Gate(memoryId, to, actor, actorKind, now) => GateKeepsLedgers(p, s, memoryId, to, actor, actorKind, now, after);
    case Link(kind, memoryId, ref, actor, now) => LinkKeepsLedgers(p, s, kind, memoryId, ref, actor, now, after);
    case Approve(c, who, policy, eventId, now) => ApproveKeepsLedgers(p, s, c, who, policy, eventId, now, after);
    case Review(c, who, d, eventId, now) => ReviewKeepsLedgers(p, s, c, who, d, eventId, now, after);
    case Propose(c, caller, id, now) => ProposeIsJudgmentSide(p, s, c, caller, id, now, after);
    case Adjudicate(v, c, who, policy, eventId, supersedeEventId, now) =>
      AdjudicateIsJudgmentSide(p, s, v, c, who, policy, eventId, supersedeEventId, now, after);
    case Withdraw(judgmentId, requestId, caller, eventId, now) =>
      WithdrawIsJudgmentSide(p, s, judgmentId, requestId, caller, eventId, now, after);
  }

  lemma {:induction false} PrefixIsLegal(p: Primitives, ops: seq<Op>, n: nat)
    requires LegalRun(p, ops) && n <= |ops|
    ensures LegalRun(p, ops[..n])
    decreases |ops|
  {
    if n < |ops| {
      PrefixIsLegal(p, ops[..|ops| - 1], n);
      assert ops[..|ops| - 1][..n] == ops[..n];
    } else {
      assert ops[..n] == ops;
    }
  }

  lemma {:induction false} RunKeepsLedgers(p: Primitives, ops: seq<Op>, n: nat)
    requires LegalRun(p, ops) && n <= |ops|
    ensures LedgersKept(Run(p, ops[..n]), Run(p, ops))
    decreases |ops|
  {
    if n < |ops| {
      var shorter := ops[..|ops| - 1];
      RunKeepsLedgers(p, shorter, n);
      assert shorter[..n] == ops[..n];
      RunKeepsInv(p, shorter);
      StepKeepsLedgers(p, Run(p, shorter), ops[|ops| - 1], Run(p, ops));
    } else {
      assert ops[..n] == ops;
    }
  }

  // ---------------------------------------------------------------- approvals

  /** An approval that succeeded left its completed reservation behind. */
  lemma ApprovalReserves(p: Primitives, s: State, c: ApproveCommand, who: Principal, policy: ApprovalPolicy,
                         eventId: string, now: string, after: State, result: DecisionResult)
    requires DecisionPart(s) && (after, Ok(result)) == ApproveStep(p, s, c, who, policy, eventId, now)
    ensures
      var key := LedgerKey(who.tenantId, c.requestId);
      && key in after.approvalLedger && Binds(after.approvalLedger[key], CommandHash(p, c), who)
      && after.approvalLedger[key].result == Some(result.(idempotentReplay := false))
    ensures !Blank(c.reason) && !Blank(c.memoryId) && !Blank(c.expectedEnvelopeHash) && !Blank(c.requestId)
  {
    var key := LedgerKey(who.tenantId, c.requestId);
    ReservationsAreComplete(s, key);
    if key in s.approvalLedger {
      assert Recorded(s.approvals, key, s.approvalLedger[key]);
    }
  }

  /** Once an approval succeeded, the same command by the same principal is answered with the stored
      result, flagged as a replay, and changes nothing, at any later point of any run. */
  lemma ApprovalReplays(p: Primitives, ops: seq<Op>, n: nat, c: ApproveCommand, who: Principal, policy: ApprovalPolicy,
                        eventId: string, now: string, result: DecisionResult,
                        laterPolicy: ApprovalPolicy, laterId: string, later: string)
    requires LegalRun(p, ops) && n < |ops| && ops[n] == Approve(c, who, policy, eventId, now)
    requires ApproveStep(p, Run(p, ops[..n]), c, who, policy, eventId, now).1 == Ok(result)
    ensures ApproveStep(p, Run(p, ops), c, who, laterPolicy, laterId, later) ==
            (Run(p, ops), Ok(result.(idempotentReplay := true)))
  {
    ApprovalStays(p, ops, n, c, who, policy, eventId, now, result);
  }

  lemma ApprovalStays(p: Primitives, ops: seq<Op>, n: nat, c: ApproveCommand, who: Principal, policy: ApprovalPolicy,
                      eventId: string, now: string, result: DecisionResult)
    requires LegalRun(p, ops) && n < |ops| && ops[n] == Approve(c, who, policy, eventId, now)
    requires ApproveStep(p, Run(p, ops[..n]), c, who, policy, eventId, now).1 == Ok(result)
    ensures
      var key, ledger := LedgerKey(who.tenantId, c.requestId), Run(p, ops).approvalLedger;
      && key in ledger && Binds(ledger[key], CommandHash(p, c), who)
      && ledger[key].result == Some(result.(idempotentReplay := false))
    ensures !Blank(c.reason) && !Blank(c.memoryId) && !Blank(c.expectedEnvelopeHash) && !Blank(c.requestId)
  {
    var upTo := ops[..n + 1];
    PrefixIsLegal(p, ops, n);
    assert upTo[..|upTo| - 1] == ops[..n] && upTo[|upTo| - 1] == ops[n];
    RunKeepsInv(p, ops[..n]);
    ApprovalReserves(p, Run(p, ops[..n]), c, who, policy, eventId, now, Run(p, upTo), result);
    RunKeepsLedgers(p, ops, n + 1);
  }

  /** Reusing the request id for another command or by another principal always conflicts. */
  lemma ApprovalReuseConflicts(p: Primitives, ops: seq<Op>, n: nat, c: ApproveCommand, who: Principal, policy: ApprovalPolicy,
                               eventId: string, now: string, result: DecisionResult,
                               other: ApproveCommand, caller: Principal, laterPolicy: ApprovalPolicy, laterId: string, later: string)
    requires LegalRun(p, ops) && n < |ops| && ops[n] == Approve(c, who, policy, eventId, now)
    requires ApproveStep(p, Run(p, ops[..n]), c, who, policy, eventId, now).1 == Ok(result)
    requires LedgerKey(caller.tenantId, other.requestId) == LedgerKey(who.tenantId, c.requestId)
    requires !Blank(other.reason) && !Blank(other.memoryId) && !Blank(other.expectedEnvelopeHash) && !Blank(other.requestId)
    requires CommandHash(p, other) != CommandHash(p, c) || caller.subjectId != who.subjectId || caller.membershipId != who.membershipId
    ensures ApproveStep(p, Run(p, ops), other, caller, laterPolicy, laterId, later) == (Run(p, ops), Err(IdempotencyConflict))
  {
    ApprovalStays(p, ops, n, c, who, policy, eventId, now, result);
  }

  // ------------------------------------------------------------------ reviews

  /** A review decision that succeeded left its completed reservation behind, with the status of the
      decision that committed it. */
  lemma ReviewReserves(p: Primitives, s: State, c: ApproveCommand, who: Principal, d: Decision,
                       eventId: string, now: string, after: State, result: DecisionResult)
    requires DecisionPart(s) && (after, Ok(result)) == ReviewStep(p, s, c, who, d, eventId, now)
    ensures
      var key := LedgerKey(who.tenantId, c.requestId);
      && key in after.reviewLedger && Binds(after.reviewLedger[key], CommandHash(p, c), who)
      && after.reviewLedger[key].result.Some?
      && after.reviewLedger[key].result.value.(currentStatus := StatusOf(d), idempotentReplay := result.idempotentReplay) == result
      && (!result.idempotentReplay ==> after.reviewLedger[key].result == Some(result))
    ensures !Blank(c.memoryId) && !Blank(c.expectedEnvelopeHash) && !Blank(c.requestId)
  {
  }

  lemma ReviewStays(p: Primitives, ops: seq<Op>, n: nat, c: ApproveCommand, who: Principal, d: Decision,
                    eventId: string, now: string, result: DecisionResult)
    requires LegalRun(p, ops) && n < |ops| && ops[n] == Review(c, who, d, eventId, now)
    requires ReviewStep(p, Run(p, ops[..n]), c, who, d, eventId, now).1 == Ok(result)
    ensures
      var key, ledger := LedgerKey(who.tenantId, c.requestId), Run(p, ops).reviewLedger;
      && key in ledger && Binds(ledger[key], CommandHash(p, c), who) && ledger[key].result.Some?
      && ledger[key].result.value.(currentStatus := StatusOf(d), idempotentReplay := result.idempotentReplay) == result
    ensures !Blank(c.memoryId) && !Blank(c.expectedEnvelopeHash) && !Blank(c.requestId)
  {
    var upTo := ops[..n + 1];
    PrefixIsLegal(p, ops, n);
    assert upTo[..|upTo| - 1] == ops[..n] && upTo[|upTo| - 1] == ops[n];
    RunKeepsInv(p, ops[..n]);
    var s, after := Run(p, ops[..n]), Run(p, upTo);
    assert after == Step(p, s, ops[n]);
    ReviewReserves(p, s, c, who, d, eventId, now, after, result);
    RunKeepsLedgers(p, ops, n + 1);
  }

  /** Repeating a review command by the same principal changes nothing and answers with the stored
      result, but under the status of the operation that repeats it: a return repeated as a rejection
      reports a rejection that never happened. */
  lemma ReviewReplays(p: Primitives, ops: seq<Op>, n: nat, c: ApproveCommand, who: Principal, d: Decision,
                      eventId: string, now: string, result: DecisionResult, again: Decision, laterId: string, later: string)
    requires LegalRun(p, ops) && n < |ops| && ops[n] == Review(c, who, d, eventId, now)
    requires ReviewStep(p, Run(p, ops[..n]), c, who, d, eventId, now).1 == Ok(result)
    ensures ReviewStep(p, Run(p, ops), c, who, again, laterId, later) ==
            (Run(p, ops), Ok(result.(currentStatus := StatusOf(again), idempotentReplay := true)))
    ensures ReviewStep(p, Run(p, ops), c, who, again, laterId, later).1 == Ok(result.(idempotentReplay := true)) <==> again == d
  {
    ReviewStays(p, ops, n, c, who, d, eventId, now, result);
    assert result.currentStatus == StatusOf(d);
  }

  lemma ReviewReuseConflicts(p: Primitives, ops: seq<Op>, n: nat, c: ApproveCommand, who: Principal, d: Decision,
                             eventId: string, now: string, result: DecisionResult,
                             other: ApproveCommand, caller: Principal, again: Decision, laterId: string, later: string)
    requires LegalRun(p, ops) && n < |ops| && ops[n] == Review(c, who, d, eventId, now)
    requires ReviewStep(p, Run(p, ops[..n]), c, who, d, eventId, now).1 == Ok(result)
    requires LedgerKey(caller.tenantId, other.requestId) == LedgerKey(who.tenantId, c.requestId)
    requires !Blank(other.memoryId) && !Blank(other.expectedEnvelopeHash) && !Blank(other.requestId)
    requires CommandHash(p, other) != CommandHash(p, c) || caller.subjectId != who.subjectId || caller.membershipId != who.membershipId
    ensures ReviewStep(p, Run(p, ops), other, caller, again, laterId, later) == (Run(p, ops), Err(IdempotencyConflict))
  {
    ReviewStays(p, ops, n, c, who, d, eventId, now, result);
  }
}
