/** What each operation appends to the logs of the store: moves, decision events and signed payloads. */
module StoreJournal {
  import opened Text
  import opened Records
  import opened StoreModel
  import opened JudgmentModel
  import opened StoreRuns

  /** The entries that a step appends. */
  datatype Entries = Entries(
    moves: seq<Transition>, approvals: seq<DecisionEvent>, decisions: seq<DecisionEvent>, payloads: seq<ReceiptPayload>)

  const NOTHING := Entries([], [], [], [])

  /** Nothing is signed without a signer. */
  function Signed(p: Primitives, xs: seq<ReceiptPayload>): seq<ReceiptPayload> {
    if p.signing then xs else []
  }

  ghost predicate Wrote(p: Primitives, s: State, after: State, d: Entries) {
    && after.transitions == s.transitions + d.moves
    && after.approvals == s.approvals + d.approvals
    && after.decisions == s.decisions + d.decisions
    && after.payloads == s.payloads + Signed(p, d.payloads)
  }

  lemma EmitWrites(p: Primitives, s: State, x: ReceiptPayload)
    ensures OnlySigned(s, Emit(p, s, x)) && Emit(p, s, x).payloads == s.payloads + Signed(p, [x])
  {
  }

  lemma NothingWritten(p: Primitives, s: State)
    ensures Wrote(p, s, s, NOTHING)
  {
  }

  // ------------------------------------------------------------------ operations

  lemma SaveWrites(p: Primitives, s: State, m: Memory, after: State) returns (d: Entries)
    requires after == SaveState(p, s, m)
    ensures Wrote(p, s, after, d) && after.memories == Saved(p, s.memories, m)
    ensures
      var at := LatestAt(p, s.memories, KeyOf(p, m));
      d == Entries([], [], [],
                   (if at >= 0 && CanVoid(s.memories[at].status)
                    then [SupersededPayload(p, s.memories[at], Replacing(s.memories[at], m), m)] else []) +
                   [RecordedPayload(p, m)])
  {
    hide Emit, SupersededPayload, RecordedPayload, Saved;
    var at := LatestAt(p, s.memories, KeyOf(p, m));
    var stored := StoredState(p, s, m);
    if at >= 0 && CanVoid(s.memories[at].status) {
      var x := SupersededPayload(p, s.memories[at], Replacing(s.memories[at], m), m);
      EmitWrites(p, stored, x);
      EmitWrites(p, Emit(p, stored, x), RecordedPayload(p, m));
      d := Entries([], [], [], [x, RecordedPayload(p, m)]);
    } else {
      EmitWrites(p, stored, RecordedPayload(p, m));
      d := Entries([], [], [], [RecordedPayload(p, m)]);
    }
  }

  lemma GateWrites(p: Primitives, s: State, memoryId: string, to: Status, actor: string, actorKind: ActorKind, now: string,
                   after: State) returns (d: Entries)
    requires after == GateStep(p, s, memoryId, to, actor, actorKind, now).0
    ensures Wrote(p, s, after, d)
    ensures
      var at := FindMemory(s.memories, memoryId);
      if at >= 0 && GateAllows(s.memories[at].status, to, actorKind) then
        var before, m := s.memories[at], WithStatus(p, s.memories[at], to);
        && after.memories == s.memories[at := m]
        && d == Entries([Transition(memoryId, before.status, to, actor, actorKind, now)], [], [],
                        if to == Rejected || to == Voided then [TransitionPayload(p, before, m, actor, now)] else [])
      else after == s && d == NOTHING
  {
    hide Emit, TransitionPayload, WithStatus;
    var at := FindMemory(s.memories, memoryId);
    d := NOTHING;
    if at >= 0 && GateAllows(s.memories[at].status, to, actorKind) {
      var before, m := s.memories[at], WithStatus(p, s.memories[at], to);
      var x := TransitionPayload(p, before, m, actor, now);
      EmitWrites(p, LoggedMove(p, s, at, to, actor, actorKind, now), x);
      d := Entries([Transition(memoryId, before.status, to, actor, actorKind, now)], [], [],
                   if to == Rejected || to == Voided then [x] else []);
    }
  }

  lemma LinkWrites(p: Primitives, s: State, kind: LinkKind, memoryId: string, ref: string, actor: string, now: string,
                   after: State) returns (d: Entries)
    requires after == LinkStep(p, s, kind, memoryId, ref, actor, now).0
    ensures Wrote(p, s, after, d)
    ensures
      var at := FindMemory(s.memories, memoryId);
      if !Blank(ref) && at >= 0 && ref !in RefsOf(s.memories[at], kind) then
        var before, m := s.memories[at], Linked(p, s.memories[at], kind, ref);
        && after.memories == s.memories[at := m]
        && d == Entries([], [], [], if kind.EvidenceLink? then [LinkedPayload(p, before, m, ref, actor, now)] else [])
      else after == s && d == NOTHING
  {
    hide Emit, LinkedPayload, Linked;
    var at := FindMemory(s.memories, memoryId);
    d := NOTHING;
    if !Blank(ref) && at >= 0 && ref !in RefsOf(s.memories[at], kind) {
      var before, m := s.memories[at], Linked(p, s.memories[at], kind, ref);
      var x := LinkedPayload(p, before, m, ref, actor, now);
      EmitWrites(p, s.(memories := s.memories[at := m]), x);
      d := Entries([], [], [], if kind.EvidenceLink? then [x] else []);
    }
  }

  /** The row, log and receipt side of a decision. */
  lemma DecideWrites(p: Primitives, s: State, at: nat, to: Status, c: ApproveCommand, who: Principal, policyVersion: string,
                     now: string) returns (d: Entries)
    requires at < |s.memories| && s.memories[at].status == PendingReview
    ensures
      var decided, before, m := Decide(p, s, at, to, c, who, policyVersion, now), s.memories[at], WithStatus(p, s.memories[at], to);
      && Wrote(p, s, decided, d) && decided.memories == s.memories[at := m]
      && d == Entries([Transition(before.id, before.status, to, who.subjectId, Human, now)], [], [],
                      [DecidedPayload(p, c, who, before, m, policyVersion, now)])
  {
    hide Emit, DecidedPayload, WithStatus;
    var before, m := s.memories[at], WithStatus(p, s.memories[at], to);
    var x := DecidedPayload(p, c, who, before, m, policyVersion, now);
    EmitWrites(p, LoggedMove(p, s, at, to, who.subjectId, Human, now), x);
    d := Entries([Transition(before.id, before.status, to, who.subjectId, Human, now)], [], [], [x]);
  }

  lemma ApprovalWrites(p: Primitives, s: State, at: nat, c: ApproveCommand, who: Principal, policyVersion: string,
                       eventId: string, now: string) returns (d: Entries)
    requires at < |s.memories| && s.memories[at].scope.Company? && s.memories[at].status == PendingReview
    ensures
      var after, before, m := CommitApproval(p, s, at, c, who, policyVersion, eventId, now).0, s.memories[at], WithStatus(p, s.memories[at], Approved);
      && Wrote(p, s, after, d) && after.memories == s.memories[at := m]
      && d == Entries([Transition(before.id, before.status, Approved, who.subjectId, Human, now)],
                      [EventFor(p, c, who, before, m, policyVersion, eventId, now)], [],
                      [DecidedPayload(p, c, who, before, m, policyVersion, now)])
  {
    hide Decide, DecidedPayload, EventFor, WithStatus, Completed;
    d := DecideWrites(p, s, at, Approved, c, who, policyVersion, now);
    d := d.(approvals := [EventFor(p, c, who, s.memories[at], WithStatus(p, s.memories[at], Approved), policyVersion, eventId, now)]);
  }

  lemma ReviewWrites(p: Primitives, s: State, at: nat, c: ApproveCommand, who: Principal, decision: Decision,
                     eventId: string, now: string) returns (d: Entries)
    requires at < |s.memories| && s.memories[at].scope.Company? && s.memories[at].status == PendingReview
    ensures
      var to := StatusOf(decision);
      var after, before, m := CommitReview(p, s, at, c, who, decision, eventId, now).0, s.memories[at], WithStatus(p, s.memories[at], to);
      && Wrote(p, s, after, d) && after.memories == s.memories[at := m]
      && d == Entries([Transition(before.id, before.status, to, who.subjectId, Human, now)], [],
                      [EventFor(p, c, who, before, m, KERNEL_POLICY_VERSION, eventId, now)],
                      [DecidedPayload(p, c, who, before, m, KERNEL_POLICY_VERSION, now)])
  {
    hide Decide, DecidedPayload, EventFor, WithStatus, Completed;
    var to := StatusOf(decision);
    d := DecideWrites(p, s, at, to, c, who, KERNEL_POLICY_VERSION, now);
    d := d.(decisions := [EventFor(p, c, who, s.memories[at], WithStatus(p, s.memories[at], to), KERNEL_POLICY_VERSION, eventId, now)]);
  }

  /** Judgment operations leave the rows, moves and decisions alone, and sign about judgments only. */
  lemma JudgmentOpWrites(p: Primitives, s: State, op: Op) returns (d: Entries)
    requires !MemoryOp(op)
    ensures Wrote(p, s, Step(p, s, op), d) && Step(p, s, op).memories == s.memories
    ensures d.moves == [] && d.approvals == [] && d.decisions == []
    ensures forall x | x in d.payloads :: x.subjectType == JUDGMENT_SUBJECT
    ensures !op.Adjudicate? ==> d.payloads == []
  {
    d := NOTHING;
    match op
    case Propose(c, caller, id, now) => ProposeWrites(p, s, c, caller, id, now);
    case Adjudicate(v, c, who, policy, eventId, supersedeEventId, now) =>
      d := VerdictWrites(p, s, v, c, who, policy, eventId, supersedeEventId, now);
    case Withdraw(judgmentId, requestId, caller, eventId, now) => WithdrawWrites(p, s, judgmentId, requestId, caller, eventId, now);
    case _ => assert false;
  }

  lemma ProposeWrites(p: Primitives, s: State, c: ProposeCommand, caller: Source, id: string, now: string)
    ensures Wrote(p, s, ProposeStep(p, s, c, caller, id, now).0, NOTHING)
    ensures ProposeStep(p, s, c, caller, id, now).0.memories == s.memories
  {
    hide ProposalScope, ProposalCheck, WithProposal, LedgerKey, ProposeHash;
  }

  lemma WithdrawWrites(p: Primitives, s: State, judgmentId: string, requestId: string, caller: Source, eventId: string, now: string)
    ensures Wrote(p, s, WithdrawStep(p, s, judgmentId, requestId, caller, eventId, now).0, NOTHING)
    ensures WithdrawStep(p, s, judgmentId, requestId, caller, eventId, now).0.memories == s.memories
  {
    hide LedgerKey, BoundTo;
  }

  lemma VerdictWrites(p: Primitives, s: State, v: Verdict, c: AdjudicateCommand, who: Principal, policy: JudgmentPolicy,
                      eventId: string, supersedeEventId: string, now: string) returns (d: Entries)
    ensures
      var after := AdjudicateStep(p, s, v, c, who, policy, eventId, supersedeEventId, now).0;
      && Wrote(p, s, after, d) && after.memories == s.memories
      && d.moves == [] && d.approvals == [] && d.decisions == []
      && (if VerdictGuards(p, s, v, c, who, policy) then
            var (at, policyVersion, pred) := AdjudicationCheck(p, s, v, c, who, policy).value;
            d.payloads == [AdjudicatedPayload(p, s.memories, s.judgments[at],
                                              Adjudicated(p, s.judgments[at], v, c, who, policyVersion, now), who, now)]
          else after == s && d.payloads == [])
    ensures forall x | x in d.payloads :: x.subjectType == JUDGMENT_SUBJECT
  {
    hide AdjudicationCheck, AdjudicateStep, WithVerdict, VerdictEvents, LedgerKey, Emit, EnvelopeOf, Adjudicated, WithRelation;
    VerdictCommitsIff(p, s, v, c, who, policy, eventId, supersedeEventId, now);
    d := NOTHING;
    if VerdictGuards(p, s, v, c, who, policy) {
      var (at, policyVersion, pred) := AdjudicationCheck(p, s, v, c, who, policy).value;
      var after := Adjudicated(p, s.judgments[at], v, c, who, policyVersion, now);
      var x := AdjudicatedPayload(p, s.memories, s.judgments[at], after, who, now);
      EmitWrites(p, VerdictState(p, s, v, at, after, pred, who, c.requestId, eventId, supersedeEventId, now), x);
      d := Entries([], [], [], [x]);
    }
  }
}
