/** Whole runs of the store: any sequence of its operations from the empty store. */
module StoreRuns {
  import opened Records
  import opened StoreModel
  import opened JudgmentModel
  import opened StatusLog
  import opened DecisionLedger
  import opened ReceiptLog
  import opened StoreInvariants
  import opened StoreSteps
  import opened StoreContinuity
  import opened JudgmentChains

  datatype Op =
    | Save(input: SaveInput, id: string, now: string)
    | Gate(memoryId: string, to: Status, actor: string, actorKind: ActorKind, now: string)
    | Link(kind: LinkKind, memoryId: string, ref: string, actor: string, now: string)
    | Approve(command: ApproveCommand, who: Principal, policy: ApprovalPolicy, eventId: string, now: string)
    | Review(command: ApproveCommand, who: Principal, decision: Decision, eventId: string, now: string)
    | Propose(proposal: ProposeCommand, caller: Source, id: string, now: string)
    | Adjudicate(verdict: Verdict, adjudication: AdjudicateCommand, who: Principal, judgmentPolicy: JudgmentPolicy,
                 eventId: string, supersedeEventId: string, now: string)
    | Withdraw(judgmentId: string, requestId: string, caller: Source, eventId: string, now: string)

  function Step(p: Primitives, s: State, op: Op): State {
    match op
    case Save(input, id, now) => SaveStep(p, s, input, id, now).0
    case Gate(memoryId, to, actor, actorKind, now) => GateStep(p, s, memoryId, to, actor, actorKind, now).0
    case Link(kind, memoryId, ref, actor, now) => LinkStep(p, s, kind, memoryId, ref, actor, now).0
    case Approve(c, who, policy, eventId, now) => ApproveStep(p, s, c, who, policy, eventId, now).0
    case Review(c, who, d, eventId, now) => ReviewStep(p, s, c, who, d, eventId, now).0
    case Propose(c, caller, id, now) => ProposeStep(p, s, c, caller, id, now).0
    case Adjudicate(v, c, who, policy, eventId, supersedeEventId, now) =>
      AdjudicateStep(p, s, v, c, who, policy, eventId, supersedeEventId, now).0
    case Withdraw(judgmentId, requestId, caller, eventId, now) =>
      WithdrawStep(p, s, judgmentId, requestId, caller, eventId, now).0
  }

  /** Random ids are fresh, and the gate is asked for one of its three targets. */
  predicate LegalOp(s: State, op: Op) {
    match op
    case Save(_, id, _) => id != "" && FindMemory(s.memories, id) < 0
    case Gate(_, to, _, _, _) => GateTarget(to)
    case Propose(_, _, id, _) => id != "" && FindJudgment(s.judgments, id) < 0
    case _ => true
  }

  function Run(p: Primitives, ops: seq<Op>): State {
    if ops == [] then EMPTY else Step(p, Run(p, ops[..|ops| - 1]), ops[|ops| - 1])
  }

  predicate LegalRun(p: Primitives, ops: seq<Op>) {
    ops == [] || (LegalRun(p, ops[..|ops| - 1]) && LegalOp(Run(p, ops[..|ops| - 1]), ops[|ops| - 1]))
  }

  lemma RunSnoc(p: Primitives, ops: seq<Op>, op: Op)
    ensures Run(p, ops + [op]) == Step(p, Run(p, ops), op)
    ensures LegalRun(p, ops + [op]) <==> LegalRun(p, ops) && LegalOp(Run(p, ops), op)
  {
    assert (ops + [op])[..|ops|] == ops;
  }

  // --------------------------------------------------------------- invariants

  /** Every judgment reservation is completed and names a stored judgment. */
  ghost predicate JudgmentLedgerOk(s: State) {
    forall key | key in s.judgmentLedger ::
      s.judgmentLedger[key].completed && FindJudgment(s.judgments, s.judgmentLedger[key].judgmentId) >= 0
  }

  /** A judgment receipt carries the scope of its subject. */
  predicate JudgmentAnchoredAt(js: seq<Judgment>, payload: ReceiptPayload) {
    payload.subjectType == JUDGMENT_SUBJECT ==>
      var at := FindJudgment(js, payload.subjectId);
      at >= 0 && JudgmentScope(js[at]) == PayloadScope(payload)
  }

  ghost predicate JudgmentsAnchored(s: State) {
    forall i | 0 <= i < |s.payloads| :: JudgmentAnchoredAt(s.judgments, s.payloads[i])
  }

  ghost predicate Inv(p: Primitives, s: State) {
    MemoryInv(p, s) && JudgmentsOk(s.judgments) && JudgmentLedgerOk(s) && JudgmentsAnchored(s)
  }

  /** An anchored receipt stays anchored as the judgments advance. */
  lemma AnchorStays(js: seq<Judgment>, after: seq<Judgment>, payload: ReceiptPayload)
    requires Advances(js, after) && DistinctJudgments(after) && JudgmentAnchoredAt(js, payload)
    ensures JudgmentAnchoredAt(after, payload)
  {
    if payload.subjectType == JUDGMENT_SUBJECT {
      var at := FindJudgment(js, payload.subjectId);
      assert SameSubject(js[at], after[at]);
      FindJudgmentAt(after, at);
    }
  }

  lemma EmptyHolds(p: Primitives)
    ensures Inv(p, EMPTY) && Continuous(p, EMPTY)
  {
  }

  /** A judgment operation touches the memory side in one way only: a receipt about a judgment. */
  ghost predicate JudgmentSide(p: Primitives, s: State, after: State) {
    && after.memories == s.memories && after.transitions == s.transitions
    && after.approvals == s.approvals && after.decisions == s.decisions
    && after.approvalLedger == s.approvalLedger && after.reviewLedger == s.reviewLedger
    && ((after.receipts == s.receipts && after.payloads == s.payloads) ||
        exists payload: ReceiptPayload ::
          payload.subjectType == JUDGMENT_SUBJECT && payload.action in RECEIPT_ACTIONS &&
          JudgmentAnchoredAt(s.judgments, payload) &&
          after.receipts == Emit(p, s, payload).receipts && after.payloads == Emit(p, s, payload).payloads)
  }

  lemma JudgmentSideKeepsInv(p: Primitives, s: State, after: State)
    requires MemoryInv(p, s) && JudgmentSide(p, s, after)
    ensures MemoryInv(p, after)
    ensures Continuous(p, s) ==> Continuous(p, after)
  {
    if after.receipts == s.receipts && after.payloads == s.payloads {
      PartsCarryOver(p, s, after);
    } else {
      var payload: ReceiptPayload :|
        payload.subjectType == JUDGMENT_SUBJECT && payload.action in RECEIPT_ACTIONS &&
        JudgmentAnchoredAt(s.judgments, payload) &&
        after.receipts == Emit(p, s, payload).receipts && after.payloads == Emit(p, s, payload).payloads;
      assert |JUDGMENT_SUBJECT| != |MEMORY_SUBJECT|;
      EmitKeepsPart(p, s, payload);
      PartsCarryOver(p, Emit(p, s, payload), after);
      if Continuous(p, s) {
        OtherSubjectKeepsContinuous(p, s, payload, after);
      }
    }
  }

  lemma ProposeIsJudgmentSide(p: Primitives, s: State, c: ProposeCommand, caller: Source, id: string, now: string, after: State)
    requires after == ProposeStep(p, s, c, caller, id, now).0
    ensures JudgmentSide(p, s, after)
  {
  }

  lemma WithdrawIsJudgmentSide(p: Primitives, s: State, judgmentId: string, requestId: string, caller: Source,
                               eventId: string, now: string, after: State)
    requires after == WithdrawStep(p, s, judgmentId, requestId, caller, eventId, now).0
    ensures JudgmentSide(p, s, after)
  {
  }

  lemma AdjudicateIsJudgmentSide(p: Primitives, s: State, v: Verdict, c: AdjudicateCommand, who: Principal,
                                 policy: JudgmentPolicy, eventId: string, supersedeEventId: string, now: string, after: State)
    requires JudgmentsOk(s.judgments)
    requires after == AdjudicateStep(p, s, v, c, who, policy, eventId, supersedeEventId, now).0
    ensures JudgmentSide(p, s, after)
  {
    var check := AdjudicationCheck(p, s, v, c, who, policy);
    if after != s && check.Ok? {
      var before := s.judgments[check.value.0];
      FindJudgmentAt(s.judgments, check.value.0);
      var payload := AdjudicatedPayload(p, s.memories, before, Adjudicated(p, before, v, c, who, check.value.1, now), who, now);
      assert after.receipts == Emit(p, s, payload).receipts && after.payloads == Emit(p, s, payload).payloads;
    }
  }

  /** A reservation of an earlier judgment stays good as the judgments advance. */
  lemma LedgerCarriesOver(s: State, after: State, key: string)
    requires JudgmentLedgerOk(s) && Advances(s.judgments, after.judgments) && key in after.judgmentLedger
    requires
      || (key in s.judgmentLedger && after.judgmentLedger[key] == s.judgmentLedger[key])
      || (after.judgmentLedger[key].completed && FindJudgment(after.judgments, after.judgmentLedger[key].judgmentId) >= 0)
    ensures after.judgmentLedger[key].completed
    ensures FindJudgment(after.judgments, after.judgmentLedger[key].judgmentId) >= 0
  {
    if key in s.judgmentLedger && after.judgmentLedger[key] == s.judgmentLedger[key] {
      var id := s.judgmentLedger[key].judgmentId;
      assert after.judgments[FindJudgment(s.judgments, id)].id == id;
    }
  }

  /** The ledger grew by one good reservation at most. */
  ghost predicate LedgerGrew(s: State, after: State) {
    forall key | key in after.judgmentLedger ::
      || (key in s.judgmentLedger && after.judgmentLedger[key] == s.judgmentLedger[key])
      || (after.judgmentLedger[key].completed && FindJudgment(after.judgments, after.judgmentLedger[key].judgmentId) >= 0)
  }

  lemma LedgerGrewKeepsOk(s: State, after: State)
    requires JudgmentLedgerOk(s) && Advances(s.judgments, after.judgments) && LedgerGrew(s, after)
    ensures JudgmentLedgerOk(after)
  {
    forall key | key in after.judgmentLedger
      ensures after.judgmentLedger[key].completed && FindJudgment(after.judgments, after.judgmentLedger[key].judgmentId) >= 0
    {
      LedgerCarriesOver(s, after, key);
    }
  }

  lemma ProposeLedger(p: Primitives, s: State, c: ProposeCommand, caller: Source, id: string, now: string, after: State)
    requires JudgmentLedgerOk(s) && after == ProposeStep(p, s, c, caller, id, now).0
    ensures LedgerGrew(s, after)
  {
    if after != s {
      var js := after.judgments;
      assert js[|js| - 1].id == id;
    }
  }

  lemma WithdrawLedger(p: Primitives, s: State, judgmentId: string, requestId: string, caller: Source,
                       eventId: string, now: string, after: State)
    requires after == WithdrawStep(p, s, judgmentId, requestId, caller, eventId, now).0
    ensures LedgerGrew(s, after)
  {
    if after != s {
      var at := FindJudgment(s.judgments, judgmentId);
      assert after.judgments[at].id == judgmentId;
    }
  }

  lemma AdjudicateLedger(p: Primitives, s: State, v: Verdict, c: AdjudicateCommand, who: Principal,
                         policy: JudgmentPolicy, eventId: string, supersedeEventId: string, now: string, after: State)
    requires after == AdjudicateStep(p, s, v, c, who, policy, eventId, supersedeEventId, now).0
    ensures LedgerGrew(s, after)
  {
    var check := AdjudicationCheck(p, s, v, c, who, policy);
    if after != s && check.Ok? {
      assert after.judgments[check.value.0].id == c.judgmentId;
    }
  }

  lemma JudgmentSideKeepsAnchors(p: Primitives, s: State, after: State)
    requires JudgmentsAnchored(s) && JudgmentSide(p, s, after)
    requires JudgmentsOk(after.judgments) && Advances(s.judgments, after.judgments)
    ensures JudgmentsAnchored(after)
  {
    forall i | 0 <= i < |after.payloads| ensures JudgmentAnchoredAt(after.judgments, after.payloads[i]) {
      assert JudgmentAnchoredAt(s.judgments, after.payloads[i]);
      AnchorStays(s.judgments, after.judgments, after.payloads[i]);
    }
  }

  lemma JudgmentStepKeepsInv(p: Primitives, s: State, after: State)
    requires Inv(p, s) && JudgmentSide(p, s, after) && LedgerGrew(s, after)
    requires JudgmentsOk(after.judgments) && Advances(s.judgments, after.judgments)
    ensures Inv(p, after)
    ensures Continuous(p, s) ==> Continuous(p, after)
  {
    JudgmentSideKeepsInv(p, s, after);
    LedgerGrewKeepsOk(s, after);
    JudgmentSideKeepsAnchors(p, s, after);
  }

  // ------------------------------------------------------------------- steps

  predicate MemoryOp(op: Op) {
    op.Save? || op.Gate? || op.Link? || op.Approve? || op.Review?
  }

  /** Memory operations leave the judgments alone and sign about memories only. */
  ghost predicate SameJudgments(s: State, after: State) {
    && after.judgments == s.judgments && after.judgmentLedger == s.judgmentLedger
    && after.judgmentEvents == s.judgmentEvents && after.judgmentRelations == s.judgmentRelations
    && s.payloads <= after.payloads
    && forall i | |s.payloads| <= i < |after.payloads| :: after.payloads[i].subjectType == MEMORY_SUBJECT
  }

  lemma EmitKeepsJudgments(p: Primitives, s: State, payload: ReceiptPayload)
    requires payload.subjectType == MEMORY_SUBJECT
    ensures SameJudgments(s, Emit(p, s, payload)) && Emit(p, s, payload).relations == s.relations
  {
  }

  lemma SaveKeepsJudgments(p: Primitives, s: State, m: Memory, after: State)
    requires after == SaveState(p, s, m)
    ensures SameJudgments(s, after)
  {
    var at := LatestAt(p, s.memories, KeyOf(p, m));
    var stored := StoredState(p, s, m);
    if at >= 0 && CanVoid(s.memories[at].status) {
      SupersedingKeepsJudgments(p, stored, s.memories[at], m);
    } else {
      EmitKeepsJudgments(p, stored, RecordedPayload(p, m));
    }
  }

  lemma SupersedingKeepsJudgments(p: Primitives, s: State, prior: Memory, m: Memory)
    ensures SameJudgments(s, SignSuperseding(p, s, prior, m))
  {
    var payload := SupersededPayload(p, prior, Replacing(prior, m), m);
    EmitKeepsJudgments(p, s, payload);
    EmitKeepsJudgments(p, Emit(p, s, payload), RecordedPayload(p, m));
  }

  lemma GateKeepsJudgments(p: Primitives, s: State, memoryId: string, to: Status, actor: string, actorKind: ActorKind,
                           now: string, after: State)
    requires after == GateStep(p, s, memoryId, to, actor, actorKind, now).0
    ensures SameJudgments(s, after) && after.relations == s.relations
  {
    if after != s {
      var at := FindMemory(s.memories, memoryId);
      var before := s.memories[at];
      var m := WithStatus(p, before, to);
      var s1 := s.(memories := s.memories[at := m],
                   transitions := s.transitions + [Transition(memoryId, before.status, to, actor, actorKind, now)]);
      var payload := TransitionPayload(p, before, m, actor, now);
      EmitKeepsJudgments(p, s1, payload);
    }
  }

  lemma LinkKeepsJudgments(p: Primitives, s: State, kind: LinkKind, memoryId: string, ref: string, actor: string,
                           now: string, after: State)
    requires after == LinkStep(p, s, kind, memoryId, ref, actor, now).0
    ensures SameJudgments(s, after) && after.relations == s.relations
  {
  }

  lemma DecideKeepsJudgments(p: Primitives, s: State, at: nat, to: Status, c: ApproveCommand, who: Principal,
                             policyVersion: string, now: string, decided: State)
    requires at < |s.memories| && s.memories[at].status == PendingReview && decided == Decide(p, s, at, to, c, who, policyVersion, now)
    ensures SameJudgments(s, decided) && decided.relations == s.relations
  {
  }

  lemma ApproveKeepsJudgments(p: Primitives, s: State, c: ApproveCommand, who: Principal, policy: ApprovalPolicy,
                              eventId: string, now: string, after: State)
    requires after == ApproveStep(p, s, c, who, policy, eventId, now).0
    ensures SameJudgments(s, after) && after.relations == s.relations
  {
    var check := ApprovalCheck(p, s, c, who, policy);
    if after != s && check.Ok? {
      var decided := Decide(p, s, check.value.0, Approved, c, who, check.value.1, now);
      DecideKeepsJudgments(p, s, check.value.0, Approved, c, who, check.value.1, now, decided);
    }
  }

  lemma ReviewKeepsJudgments(p: Primitives, s: State, c: ApproveCommand, who: Principal, d: Decision,
                             eventId: string, now: string, after: State)
    requires after == ReviewStep(p, s, c, who, d, eventId, now).0
    ensures SameJudgments(s, after) && after.relations == s.relations
  {
    var check := ReviewCheck(p, s, c, who, d);
    if after != s && check.Ok? {
      var decided := Decide(p, s, check.value, StatusOf(d), c, who, KERNEL_POLICY_VERSION, now);
      DecideKeepsJudgments(p, s, check.value, StatusOf(d), c, who, KERNEL_POLICY_VERSION, now, decided);
    }
  }

  lemma MemoryOpKeepsJudgments(p: Primitives, s: State, op: Op, after: State)
    requires MemoryOp(op) && after == Step(p, s, op)
    ensures SameJudgments(s, after)
  {
    match op
    case Save(input, id, now) =>
      if SaveRefusal(p, s, input, now).None? {
        SaveKeepsJudgments(p, s, RevisionFor(p, s, input, id, now), after);
      }
    case Gate(memoryId, to, actor, actorKind, now) => GateKeepsJudgments(p, s, memoryId, to, actor, actorKind, now, after);
    case Link(kind, memoryId, ref, actor, now) => LinkKeepsJudgments(p, s, kind, memoryId, ref, actor, now, after);
    case Approve(c, who, policy, eventId, now) => ApproveKeepsJudgments(p, s, c, who, policy, eventId, now, after);
    case Review(c, who, d, eventId, now) => ReviewKeepsJudgments(p, s, c, who, d, eventId, now, after);
    case _ => assert false;
  }

  lemma MemoryOpKeepsInv(p: Primitives, s: State, op: Op, after: State)
    requires MemoryInv(p, s) && LegalOp(s, op) && MemoryOp(op) && after == Step(p, s, op)
    ensures MemoryInv(p, after)
  {
    match op
    case Save(input, id, now) => SaveKeepsInv(p, s, input, id, now, after);
    case Gate(memoryId, to, actor, actorKind, now) => GateKeepsInv(p, s, memoryId, to, actor, actorKind, now, after);
    case Link(kind, memoryId, ref, actor, now) => LinkKeepsInv(p, s, kind, memoryId, ref, actor, now, after);
    case Approve(c, who, policy, eventId, now) => ApproveKeepsInv(p, s, c, who, policy, eventId, now, after);
    case Review(c, who, d, eventId, now) => ReviewKeepsInv(p, s, c, who, d, eventId, now, after);
    case _ => assert false;
  }

  lemma JudgmentOpKeepsInv(p: Primitives, s: State, op: Op, after: State)
    requires Inv(p, s) && LegalOp(s, op) && !MemoryOp(op) && after == Step(p, s, op)
    ensures Inv(p, after) && Advances(s.judgments, after.judgments)
    ensures Continuous(p, s) ==> Continuous(p, after)
  {
    match op {
      case Propose(c, caller, id, now) =>
        ProposeIsJudgmentSide(p, s, c, caller, id, now, after);
        ProposeKeepsJudgments(p, s, c, caller, id, now, after.judgments);
        ProposeLedger(p, s, c, caller, id, now, after);
      case Adjudicate(v, c, who, policy, eventId, supersedeEventId, now) =>
        AdjudicateIsJudgmentSide(p, s, v, c, who, policy, eventId, supersedeEventId, now, after);
        AdjudicateKeepsJudgments(p, s, v, c, who, policy, eventId, supersedeEventId, now);
        AdjudicateLedger(p, s, v, c, who, policy, eventId, supersedeEventId, now, after);
      case Withdraw(judgmentId, requestId, caller, eventId, now) =>
        WithdrawIsJudgmentSide(p, s, judgmentId, requestId, caller, eventId, now, after);
        WithdrawKeepsJudgments(p, s, judgmentId, requestId, caller, eventId, now);
        WithdrawLedger(p, s, judgmentId, requestId, caller, eventId, now, after);
      case _ => assert false;
    }
    JudgmentStepKeepsInv(p, s, after);
  }

  /** Every legal operation keeps the store's invariants and advances the judgments legally. */
  lemma StepKeepsInv(p: Primitives, s: State, op: Op, after: State)
    requires Inv(p, s) && LegalOp(s, op) && after == Step(p, s, op)
    ensures Inv(p, after) && Advances(s.judgments, after.judgments)
  {
    if MemoryOp(op) {
      MemoryOpKeepsInv(p, s, op, after);
      MemoryOpKeepsJudgments(p, s, op, after);
      forall i | 0 <= i < |after.payloads| ensures JudgmentAnchoredAt(after.judgments, after.payloads[i]) {
        assert |JUDGMENT_SUBJECT| != |MEMORY_SUBJECT|;
        assert i < |s.payloads| ==> after.payloads[i] == s.payloads[i] && JudgmentAnchoredAt(s.judgments, s.payloads[i]);
      }
    } else {
      JudgmentOpKeepsInv(p, s, op, after);
    }
  }

  /** The store's invariants hold after every legal run. */
  lemma {:induction false} RunKeepsInv(p: Primitives, ops: seq<Op>)
    requires LegalRun(p, ops)
    ensures Inv(p, Run(p, ops))
  {
    if ops == [] {
      EmptyHolds(p);
    } else {
      var before := Run(p, ops[..|ops| - 1]);
      RunKeepsInv(p, ops[..|ops| - 1]);
      StepKeepsInv(p, before, ops[|ops| - 1], Run(p, ops));
    }
  }

  // -------------------------------------------------------------- continuity

  /** The two operations that change a row's envelope without a receipt. */
  predicate Breaks(p: Primitives, s: State, op: Op) {
    match op
    case Gate(memoryId, to, _, actorKind, _) => GateBreaks(p, s, memoryId, to, actorKind)
    case Link(kind, memoryId, ref, _, _) => LinkBreaks(p, s, kind, memoryId, ref)
    case _ => false
  }

  /** A step keeps the envelope line unbroken exactly when it is not one of those two. */
  lemma StepContinuityIff(p: Primitives, s: State, op: Op, after: State)
    requires Inv(p, s) && NonEmptyEnvelopes(p) && p.signing && Continuous(p, s)
    requires LegalOp(s, op) && after == Step(p, s, op)
    ensures Continuous(p, after) <==> !Breaks(p, s, op)
  {
    hide SaveState, RowPart, DecisionPart, ReceiptPart, JudgmentsOk, JudgmentLedgerOk, JudgmentsAnchored;
    match op
    case Save(input, id, now) =>
      if SaveRefusal(p, s, input, now).None? {
        RevisionForIsFresh(p, s, input, id, now);
        RevisionKeepsContinuous(p, s, RevisionFor(p, s, input, id, now), after);
      }
    case Gate(memoryId, to, actor, actorKind, now) => GateContinuity(p, s, memoryId, to, actor, actorKind, now, after);
    case Link(kind, memoryId, ref, actor, now) => LinkContinuity(p, s, kind, memoryId, ref, actor, now, after);
    case Approve(c, who, policy, eventId, now) => ApproveKeepsContinuous(p, s, c, who, policy, eventId, now, after);
    case Review(c, who, d, eventId, now) => ReviewKeepsContinuous(p, s, c, who, d, eventId, now, after);
    case _ => JudgmentOpKeepsInv(p, s, op, after);
  }

  /** No step of the run is one of the two uncovered ones. */
  predicate CoveredRun(p: Primitives, ops: seq<Op>) {
    ops == [] || (CoveredRun(p, ops[..|ops| - 1]) && !Breaks(p, Run(p, ops[..|ops| - 1]), ops[|ops| - 1]))
  }

  /** In every covered run, each receipt of a memory starts at the envelope the one before it committed,
      and the last one committed the memory's freshly computed envelope. */
  lemma {:induction false} CoveredRunsAreContinuous(p: Primitives, ops: seq<Op>)
    requires LegalRun(p, ops) && CoveredRun(p, ops) && NonEmptyEnvelopes(p) && p.signing
    ensures Continuous(p, Run(p, ops))
  {
    if ops == [] {
      EmptyHolds(p);
    } else {
      var before := Run(p, ops[..|ops| - 1]);
      RunKeepsInv(p, ops[..|ops| - 1]);
      CoveredRunsAreContinuous(p, ops[..|ops| - 1]);
      StepContinuityIff(p, before, ops[|ops| - 1], Run(p, ops));
    }
  }
}
