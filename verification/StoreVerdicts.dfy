/** When proposals, verdicts and withdrawals of judgments take effect, in the terms of the judgments and rows they are
    about, and what of that holds for every judgment of a run. */
module StoreVerdicts {
  import opened Text
  import opened Records
  import opened StoreModel
  import opened JudgmentModel
  import opened JudgmentChains
  import opened RevisionChains
  import opened StoreInvariants
  import opened StoreSteps
  import opened StoreRuns
  import opened StoreRows
  import opened StoreDecisions
  import opened StoreJournal

  lemma JudgmentFound(js: seq<Judgment>, j: Judgment)
    requires DistinctJudgments(js) && j in js
    ensures FindJudgment(js, j.id) >= 0 && js[FindJudgment(js, j.id)] == j
  {
    var i :| 0 <= i < |js| && js[i] == j;
    FindJudgmentAt(js, i);
  }

  lemma DistinctStore(p: Primitives, s: State)
    requires Inv(p, s)
    ensures DistinctJudgments(s.judgments) && DistinctIds(s.memories) && JudgmentLedgerOk(s)
  {
  }

  // ---------------------------------------------------------------------- verdicts

  /** The predecessor that a confirmation replaces is confirmed, or was replaced by this very judgment. */
  predicate PredecessorGivesWay(js: seq<Judgment>, j: Judgment) {
    j.predecessorId == "" ||
    exists q | q in js :: q.id == j.predecessorId && (q.status == Confirmed || (q.status == Replaced && q.supersedesId == j.id))
  }

  /** The judgment that a verdict may decide. */
  predicate MayDecide(p: Primitives, js: seq<Judgment>, v: Verdict, c: AdjudicateCommand, who: Principal,
                      policy: JudgmentPolicy, j: Judgment)
  {
    && j.id == c.judgmentId && j.status == Proposed
    && p.normalize(c.expectedJudgmentHash) == p.lower(p.judgmentHash(j))
    && policy(who, j).allowed && (v.Confirm? ==> PredecessorGivesWay(js, j))
  }

  /** The request is unused, or a proposal reserved it for this very command and principal. */
  predicate RequestOpen(p: Primitives, s: State, c: AdjudicateCommand, who: Principal) {
    var key := JoinNul([who.tenantId, c.requestId]);
    key in s.judgmentLedger ==>
      var r := s.judgmentLedger[key];
      && r.commandHash == p.commandHash([c.judgmentId, p.lower(c.expectedJudgmentHash), c.resolution])
      && r.binding == who.subjectId && r.eventId.None?
  }

  lemma AdjudicationCheckIff(p: Primitives, s: State, v: Verdict, c: AdjudicateCommand, who: Principal, policy: JudgmentPolicy)
    requires DistinctJudgments(s.judgments)
    ensures AdjudicationCheck(p, s, v, c, who, policy).Ok? <==> exists j | j in s.judgments :: MayDecide(p, s.judgments, v, c, who, policy, j)
    ensures AdjudicationCheck(p, s, v, c, who, policy).Ok? ==>
              var (at, policyVersion, pred) := AdjudicationCheck(p, s, v, c, who, policy).value;
              MayDecide(p, s.judgments, v, c, who, policy, s.judgments[at]) && policyVersion == policy(who, s.judgments[at]).policyVersion
  {
    hide PredecessorGivesWay, SupersedeCheck;
    var check := AdjudicationCheck(p, s, v, c, who, policy);
    var at := FindJudgment(s.judgments, c.judgmentId);
    if at >= 0 {
      SupersedeCheckIff(s, s.judgments[at]);
    }
    assert check.Ok? ==> MayDecide(p, s.judgments, v, c, who, policy, s.judgments[check.value.0]);
    if j :| j in s.judgments && MayDecide(p, s.judgments, v, c, who, policy, j) {
      JudgmentFound(s.judgments, j);
    }
  }

  lemma SupersedeCheckIff(s: State, j: Judgment)
    requires DistinctJudgments(s.judgments)
    ensures SupersedeCheck(s, j).Ok? <==> PredecessorGivesWay(s.judgments, j)
  {
    var at := FindJudgment(s.judgments, j.predecessorId);
    assert at >= 0 ==> s.judgments[at] in s.judgments;
    forall q | q in s.judgments && q.id == j.predecessorId ensures at >= 0 && s.judgments[at] == q {
      JudgmentFound(s.judgments, q);
    }
  }

  /** A verdict takes effect exactly when it is complete, its request is open, and a stored proposal may be decided by
      it; nothing else changes the store. */
  lemma VerdictsIff(p: Primitives, s: State, v: Verdict, c: AdjudicateCommand, who: Principal, policy: JudgmentPolicy,
                    eventId: string, supersedeEventId: string, now: string)
    requires Inv(p, s)
    ensures
      var after := AdjudicateStep(p, s, v, c, who, policy, eventId, supersedeEventId, now).0;
      after != s <==>
      && !Blank(c.resolution) && !Blank(c.judgmentId) && !Blank(c.expectedJudgmentHash) && !Blank(c.requestId)
      && RequestOpen(p, s, c, who) && exists j | j in s.judgments :: MayDecide(p, s.judgments, v, c, who, policy, j)
  {
    hide AdjudicationCheck, MayDecide, AdjudicateStep, CommitVerdict, Inv, Blank;
    DistinctStore(p, s);
    AdjudicationCheckIff(p, s, v, c, who, policy);
    VerdictCommitsIff(p, s, v, c, who, policy, eventId, supersedeEventId, now);
  }

  /** The event of a verdict tells of the judgment it decided, by this principal under this policy. */
  predicate TellsVerdict(p: Primitives, e: JudgmentEvent, v: Verdict, c: AdjudicateCommand, who: Principal, j: Judgment,
                         policyVersion: string, eventId: string, now: string)
  {
    && e.id == eventId && e.requestId == c.requestId && e.judgmentId == j.id && e.tenantId == j.tenantId
    && e.from == Proposed && e.reason == c.resolution && e.policyVersion == policyVersion && e.createdAt == now
    && (if v.Confirm? then e.action == ConfirmAction && e.to == Confirmed else e.action == RejectAction && e.to == Declined)
    && e.principal == Some(PrincipalSnapshot(
         subjectId := who.subjectId, membershipId := who.membershipId, roles := p.canonicalRoles(who.roles),
         authenticationMethod := who.authenticationMethod, assuranceLevel := who.assuranceLevel,
         authenticatedAt := who.authenticatedAt))
  }

  /** The receipt of a verdict commits the envelopes of the related rows as they are stored. */
  predicate SignsEnds(p: Primitives, ms: seq<Memory>, x: ReceiptPayload, j: Judgment) {
    && x.subjectId == j.id && x.fromMemoryId == j.fromId && x.toMemoryId == j.toId
    && (forall m | m in ms && m.id == j.fromId :: x.fromEnvelopeHash == p.envelopeHash(ViewOf(m)))
    && (forall m | m in ms && m.id == j.toId :: x.toEnvelopeHash == p.envelopeHash(ViewOf(m)))
  }

  lemma EnvelopeOfRow(p: Primitives, ms: seq<Memory>, m: Memory)
    requires DistinctIds(ms) && m in ms
    ensures EnvelopeOf(p, ms, m.id) == p.envelopeHash(ViewOf(m))
  {
    FoundById(ms, m);
  }

  lemma EndsAreSigned(p: Primitives, ms: seq<Memory>, before: Judgment, after: Judgment, who: Principal, now: string)
    requires DistinctIds(ms)
    ensures SignsEnds(p, ms, AdjudicatedPayload(p, ms, before, after, who, now), before)
  {
    hide EnvelopeOf, ViewOf;
    forall m | m in ms ensures EnvelopeOf(p, ms, m.id) == p.envelopeHash(ViewOf(m)) {
      EnvelopeOfRow(p, ms, m);
    }
  }

  /** What a verdict that takes effect writes: its event first, then at most the event of the predecessor that gave way;
      and one receipt when there is a signer. */
  lemma VerdictRecords(p: Primitives, s: State, v: Verdict, c: AdjudicateCommand, who: Principal, policy: JudgmentPolicy,
                       eventId: string, supersedeEventId: string, now: string) returns (j: Judgment)
    requires Inv(p, s) && AdjudicateStep(p, s, v, c, who, policy, eventId, supersedeEventId, now).0 != s
    ensures j in s.judgments && MayDecide(p, s.judgments, v, c, who, policy, j)
    ensures
      var after := AdjudicateStep(p, s, v, c, who, policy, eventId, supersedeEventId, now).0;
      var n := |s.judgmentEvents|;
      && n < |after.judgmentEvents| <= n + 2 && after.judgmentEvents[..n] == s.judgmentEvents
      && TellsVerdict(p, after.judgmentEvents[n], v, c, who, j, policy(who, j).policyVersion, eventId, now)
      && (|after.judgmentEvents| == n + 2 ==>
            after.judgmentEvents[n + 1].action == SupersedeAction && after.judgmentEvents[n + 1].judgmentId == j.predecessorId &&
            after.judgmentEvents[n + 1].id == supersedeEventId && after.judgmentEvents[n + 1].requestId == c.requestId)
      && (p.signing ==> |after.payloads| == |s.payloads| + 1 && SignsEnds(p, s.memories, after.payloads[|s.payloads|], j))
  {
    hide AdjudicationCheck, MayDecide, AdjudicateStep, Inv, Blank, AdjudicatedPayload, LedgerKey, Emit, WithVerdict, WithRelation;
    DistinctStore(p, s);
    AdjudicationCheckIff(p, s, v, c, who, policy);
    VerdictCommitsIff(p, s, v, c, who, policy, eventId, supersedeEventId, now);
    var (at, policyVersion, pred) := AdjudicationCheck(p, s, v, c, who, policy).value;
    j := s.judgments[at];
    var after := Adjudicated(p, j, v, c, who, policyVersion, now);
    EndsAreSigned(p, s.memories, j, after, who, now);
    EmitWrites(p, VerdictState(p, s, v, at, after, pred, who, c.requestId, eventId, supersedeEventId, now),
               AdjudicatedPayload(p, s.memories, j, after, who, now));
  }

  /** A refused verdict says why: a blank field, a request taken by something else, no such judgment, one that is not
      open, another hash than the one reviewed, a policy that denies, or a predecessor that cannot give way. */
  lemma VerdictRefusals(p: Primitives, s: State, v: Verdict, c: AdjudicateCommand, who: Principal, policy: JudgmentPolicy,
                        eventId: string, supersedeEventId: string, now: string)
    requires Inv(p, s) && AdjudicateStep(p, s, v, c, who, policy, eventId, supersedeEventId, now).1.Err?
    ensures
      var code := AdjudicateStep(p, s, v, c, who, policy, eventId, supersedeEventId, now).1.code;
      || (code == ResolutionRequired && Blank(c.resolution))
      || (code == IdempotencyConflict && JoinNul([who.tenantId, c.requestId]) in s.judgmentLedger && !RequestOpen(p, s, c, who))
      || (code == JudgmentNotFound && (Blank(c.judgmentId) || Blank(c.expectedJudgmentHash) || Blank(c.requestId) ||
                                       forall j | j in s.judgments :: j.id != c.judgmentId))
      || exists j | j in s.judgments :: j.id == c.judgmentId && JudgmentExplains(p, s.judgments, code, v, c, who, policy, j)
  {
    hide Inv, Blank, VerdictState, AdjudicatedPayload, Emit, AdjudicationCheck, AdjudicateHash, LedgerKey, JudgmentExplains, DistinctJudgments;
    DistinctStore(p, s);
    KeyIsJoined(who.tenantId, c.requestId);
    HashIsJoined(p, c);
    if AdjudicationCheck(p, s, v, c, who, policy).Err? {
      CheckRefusals(p, s, v, c, who, policy);
    }
  }

  lemma CheckRefusals(p: Primitives, s: State, v: Verdict, c: AdjudicateCommand, who: Principal, policy: JudgmentPolicy)
    requires DistinctJudgments(s.judgments) && AdjudicationCheck(p, s, v, c, who, policy).Err?
    ensures
      var code := AdjudicationCheck(p, s, v, c, who, policy).code;
      || (code == JudgmentNotFound && forall j | j in s.judgments :: j.id != c.judgmentId)
      || exists j | j in s.judgments :: j.id == c.judgmentId && JudgmentExplains(p, s.judgments, code, v, c, who, policy, j)
  {
    hide PredecessorGivesWay, SupersedeCheck, DistinctJudgments;
    var at := FindJudgment(s.judgments, c.judgmentId);
    if at >= 0 {
      var j := s.judgments[at];
      assert j in s.judgments;
      SupersedeCheckIff(s, j);
      SupersedeRefusals(s, j);
      assert JudgmentExplains(p, s.judgments, AdjudicationCheck(p, s, v, c, who, policy).code, v, c, who, policy, j);
    }
    forall j | j in s.judgments && j.id == c.judgmentId ensures at >= 0 {
      JudgmentFound(s.judgments, j);
    }
  }

  lemma HashIsJoined(p: Primitives, c: AdjudicateCommand)
    ensures AdjudicateHash(p, c) == p.commandHash([c.judgmentId, p.lower(c.expectedJudgmentHash), c.resolution])
  {
  }

  lemma SupersedeRefusals(s: State, j: Judgment)
    ensures SupersedeCheck(s, j).Err? ==> SupersedeCheck(s, j).code in {JudgmentNotFound, InvalidJudgmentTransition}
  {
  }

  /** The code of a refused verdict names a guard that the judgment found under its id fails. */
  predicate JudgmentExplains(p: Primitives, js: seq<Judgment>, code: ErrorCode, v: Verdict, c: AdjudicateCommand, who: Principal,
                             policy: JudgmentPolicy, j: Judgment)
  {
    match code
    case InvalidJudgmentTransition => j.status != Proposed || (v.Confirm? && !PredecessorGivesWay(js, j))
    case JudgmentNotFound => v.Confirm? && !PredecessorGivesWay(js, j)
    case JudgmentHashMismatch => j.status == Proposed && p.normalize(c.expectedJudgmentHash) != p.lower(p.judgmentHash(j))
    case PolicyDenied(reason) => j.status == Proposed && !policy(who, j).allowed && reason == policy(who, j).reasonCode
    case _ => false
  }

  // ---------------------------------------------------------- withdrawals and proposals

  /** Only agents and systems propose and withdraw. */
  predicate Proposes(caller: Source) {
    caller.actorKind in {Agent, System}
  }

  /** A withdrawal takes effect exactly when its proposer asks for it, under an open request, about an open proposal;
      nothing else changes the store. */
  lemma WithdrawsIff(p: Primitives, s: State, judgmentId: string, requestId: string, caller: Source, eventId: string, now: string)
    requires Inv(p, s)
    ensures
      var after := WithdrawStep(p, s, judgmentId, requestId, caller, eventId, now).0;
      after != s <==>
      && !Blank(judgmentId) && !Blank(requestId) && Proposes(caller)
      && exists j | j in s.judgments :: MayWithdraw(p, s, judgmentId, requestId, caller, j)
  {
    hide Inv, Blank, DistinctJudgments, LedgerKey;
    DistinctStore(p, s);
    var at := FindJudgment(s.judgments, judgmentId);
    assert at >= 0 ==> s.judgments[at] in s.judgments;
    forall j | j in s.judgments && j.id == judgmentId ensures at >= 0 && s.judgments[at] == j {
      JudgmentFound(s.judgments, j);
    }
    assert at >= 0 ==> LedgerKey(s.judgments[at].tenantId, requestId) == JoinNul([s.judgments[at].tenantId, requestId]) by {
      KeyIsJoined(if at >= 0 then s.judgments[at].tenantId else "", requestId);
    }
    WithdrawalChanges(p, s, judgmentId, requestId, caller, eventId, now);
  }

  lemma KeyIsJoined(tenantId: string, requestId: string)
    ensures LedgerKey(tenantId, requestId) == JoinNul([tenantId, requestId])
  {
  }

  lemma WithdrawalChanges(p: Primitives, s: State, judgmentId: string, requestId: string, caller: Source, eventId: string, now: string)
    ensures
      var at := FindJudgment(s.judgments, judgmentId);
      at >= 0 && s.judgments[at].status == Proposed ==> CommitWithdrawal(p, s, at, requestId, caller, eventId, now).0 != s
  {
    var at := FindJudgment(s.judgments, judgmentId);
    if at >= 0 && s.judgments[at].status == Proposed {
      assert CommitWithdrawal(p, s, at, requestId, caller, eventId, now).0.judgments[at].status == Withdrawn;
    }
  }

  predicate MayWithdraw(p: Primitives, s: State, judgmentId: string, requestId: string, caller: Source, j: Judgment) {
    var key := JoinNul([j.tenantId, requestId]);
    && j.id == judgmentId && j.status == Proposed && p.proposerBinding(j.proposer) == p.proposerBinding(caller)
    && (key in s.judgmentLedger ==>
          var r := s.judgmentLedger[key];
          r.commandHash == p.commandHash([judgmentId]) && r.binding == p.proposerBinding(caller) && r.eventId.None?)
  }

  /** The two rows that a proposal may relate: different ones of one company. */
  predicate Relatable(from: Memory, to: Memory) {
    && from.id != to.id && from.scope.Company? && to.scope.Company?
    && from.scope.organizationId == to.scope.organizationId && from.scope.companyId == to.scope.companyId
  }

  /** What holds of a judgment from its proposal on. */
  predicate Sound(from: Memory, to: Memory, j: Judgment) {
    && Relatable(from, to) && j.fromId == from.id && j.toId == to.id
    && j.tenantId == from.scope.organizationId && j.companyId == from.scope.companyId
    && j.fiscalPeriodId == (if from.scope.period == to.scope.period then from.scope.period else "")
    && j.relation in {Supports, Contradicts, Explains, Reconciles, Reverses, MemoryRelation.Supersedes}
    && Proposes(j.proposer)
  }

  ghost predicate RelatesRows(ms: seq<Memory>, j: Judgment) {
    exists from, to | from in ms && to in ms :: Sound(from, to, j)
  }

  /** The proposal's scope, exactly: complete, of a proposable relation, by an agent or a system, about two stored rows
      of one company. */
  lemma ProposalScopeIff(s: State, c: ProposeCommand, caller: Source)
    requires DistinctIds(s.memories)
    ensures ProposalScope(s, c, caller).Ok? <==>
            && !Blank(c.fromId) && !Blank(c.toId) && !Blank(c.reason) && !Blank(c.requestId)
            && c.relation in {Supports, Contradicts, Explains, Reconciles, Reverses, MemoryRelation.Supersedes}
            && Proposes(caller)
            && exists from, to | from in s.memories && to in s.memories ::
                 from.id == c.fromId && to.id == c.toId && Relatable(from, to)
  {
    hide Blank, DistinctIds;
    var fromAt, toAt := FindMemory(s.memories, c.fromId), FindMemory(s.memories, c.toId);
    if fromAt >= 0 && toAt >= 0 {
      assert s.memories[fromAt] in s.memories && s.memories[toAt] in s.memories;
    }
    forall m | m in s.memories ensures FindMemory(s.memories, m.id) >= 0 && s.memories[FindMemory(s.memories, m.id)] == m {
      FoundById(s.memories, m);
    }
  }

  /** A correction names a judgment of the same rows and relation that is confirmed, or open and the caller's own. */
  predicate Corrects(p: Primitives, js: seq<Judgment>, c: ProposeCommand, caller: Source) {
    c.predecessorId == "" ||
    exists q | q in js ::
      && q.id == c.predecessorId && q.fromId == c.fromId && q.toId == c.toId && q.relation == c.relation
      && (q.status == Confirmed || (q.status == Proposed && p.proposerBinding(q.proposer) == p.proposerBinding(caller)))
  }

  /** No other proposal is open between the same rows in the same relation. */
  predicate Unopposed(js: seq<Judgment>, c: ProposeCommand, from: Memory) {
    forall q | q in js && q.status == Proposed && q.fromId == c.fromId && q.toId == c.toId && q.relation == c.relation &&
               from.scope.Company? && q.tenantId == from.scope.organizationId && q.companyId == from.scope.companyId ::
      q.id == c.predecessorId
  }

  /** The rows that a proposal may relate, in a store where its request is unused. */
  predicate MayPropose(p: Primitives, s: State, c: ProposeCommand, caller: Source, from: Memory, to: Memory) {
    && from.id == c.fromId && to.id == c.toId && Relatable(from, to)
    && JoinNul([from.scope.organizationId, c.requestId]) !in s.judgmentLedger
    && Corrects(p, s.judgments, c, caller) && Unopposed(s.judgments, c, from)
  }

  lemma PredecessorCheckIff(p: Primitives, s: State, c: ProposeCommand, caller: Source)
    requires DistinctJudgments(s.judgments)
    ensures PredecessorCheck(p, s, c, caller).Ok? <==> Corrects(p, s.judgments, c, caller)
    ensures PredecessorCheck(p, s, c, caller).Ok? ==>
              forall q | q in s.judgments && q.status == Proposed :: q.id == PredecessorCheck(p, s, c, caller).value <==> q.id == c.predecessorId
  {
    hide DistinctJudgments;
    var at := FindJudgment(s.judgments, c.predecessorId);
    assert at >= 0 ==> s.judgments[at] in s.judgments;
    NoEmptyId(s.judgments);
    forall q | q in s.judgments && q.id == c.predecessorId ensures at >= 0 && s.judgments[at] == q {
      JudgmentFound(s.judgments, q);
    }
  }

  lemma NoEmptyId(js: seq<Judgment>)
    requires DistinctJudgments(js)
    ensures forall q | q in js :: q.id != ""
  {
  }

  lemma ProposalCheckIff(p: Primitives, s: State, c: ProposeCommand, caller: Source, from: Memory, tuple: Tuple)
    requires DistinctJudgments(s.judgments) && OneOpenPerTuple(s.judgments) && from.scope.Company?
    requires tuple == Tuple(from.scope.organizationId, from.scope.companyId, c.fromId, c.toId, c.relation)
    ensures ProposalCheck(p, s, c, caller, tuple).Ok? <==> Corrects(p, s.judgments, c, caller) && Unopposed(s.judgments, c, from)
  {
    hide Corrects, PredecessorCheck, DistinctJudgments;
    PredecessorCheckIff(p, s, c, caller);
    var open := OpenAt(s.judgments, tuple);
    if open >= 0 {
      assert s.judgments[open] in s.judgments;
    }
    forall q | q in s.judgments && q.status == Proposed && TupleOf(q) == tuple ensures open >= 0 && q == s.judgments[open] {
      var i :| 0 <= i < |s.judgments| && s.judgments[i] == q;
      assert OpenFor(s.judgments[i], tuple);
    }
  }

  /** A proposal takes effect exactly when it is complete, of a proposable relation, made by an agent or a system, and
      there are two rows that it may relate; nothing else changes the store. */
  lemma ProposesIff(p: Primitives, s: State, c: ProposeCommand, caller: Source, id: string, now: string)
    requires Inv(p, s)
    ensures
      var after := ProposeStep(p, s, c, caller, id, now).0;
      after != s <==>
      && !Blank(c.fromId) && !Blank(c.toId) && !Blank(c.reason) && !Blank(c.requestId)
      && c.relation in {Supports, Contradicts, Explains, Reconciles, Reverses, MemoryRelation.Supersedes} && Proposes(caller)
      && exists from, to | from in s.memories && to in s.memories :: MayPropose(p, s, c, caller, from, to)
  {
    hide Inv, Blank, ProposalCheck, Corrects, Unopposed, ProposeHash, LedgerKey, FindJudgment, OneOpenPerTuple, DistinctJudgments, DistinctIds;
    DistinctStore(p, s);
    ProposalScopeIff(s, c, caller);
    forall m | m in s.memories ensures FindMemory(s.memories, m.id) >= 0 && s.memories[FindMemory(s.memories, m.id)] == m {
      FoundById(s.memories, m);
    }
    if ProposalScope(s, c, caller).Ok? {
      var from, to := s.memories[FindMemory(s.memories, c.fromId)], s.memories[FindMemory(s.memories, c.toId)];
      var tuple := ProposalScope(s, c, caller).value.0;
      assert from in s.memories && to in s.memories;
      OpenInRun(p, s);
      ProposalCheckIff(p, s, c, caller, from, tuple);
      KeyIsJoined(tuple.tenantId, c.requestId);
      ProposalChanges(p, s, c, caller, id, now, tuple);
    }
  }

  lemma OpenInRun(p: Primitives, s: State)
    requires Inv(p, s)
    ensures OneOpenPerTuple(s.judgments) && forall key | key in s.judgmentLedger :: s.judgmentLedger[key].completed
  {
  }

  lemma ProposalChanges(p: Primitives, s: State, c: ProposeCommand, caller: Source, id: string, now: string, tuple: Tuple)
    ensures forall period, replaced ::
      CommitProposal(p, s, c, caller, NewJudgment(tuple, period, c, caller, id, now), replaced, now).0.judgments != s.judgments
  {
    forall period, replaced
      ensures CommitProposal(p, s, c, caller, NewJudgment(tuple, period, c, caller, id, now), replaced, now).0.judgments != s.judgments
    {
      var after := CommitProposal(p, s, c, caller, NewJudgment(tuple, period, c, caller, id, now), replaced, now).0;
      assert |after.judgments| == |s.judgments| + 1;
    }
  }

  /** The proposal that a step adds is sound. */
  lemma NewJudgmentIsSound(p: Primitives, s: State, c: ProposeCommand, caller: Source, id: string, now: string, after: State)
    requires after == ProposeStep(p, s, c, caller, id, now).0 && |after.judgments| > |s.judgments|
    ensures |after.judgments| == |s.judgments| + 1 && RelatesRows(s.memories, after.judgments[|s.judgments|])
    ensures
      var j := after.judgments[|s.judgments|];
      && j.id == id && j.status == Proposed && j.proposer == caller && j.proposalReason == c.reason
      && j.predecessorId == c.predecessorId && j.proposedAt == now
  {
    hide Blank, LedgerKey, ProposeHash, BoundTo, ProposalCheck, ReplayedProposal;
    var fromAt, toAt := FindMemory(s.memories, c.fromId), FindMemory(s.memories, c.toId);
    var j := after.judgments[|s.judgments|];
    assert s.memories[fromAt] in s.memories && s.memories[toAt] in s.memories;
    assert Sound(s.memories[fromAt], s.memories[toAt], j);
  }

  lemma SoundStays(ms: seq<Memory>, after: seq<Memory>, j: Judgment, k: Judgment)
    requires RelatesRows(ms, j) && SameSubject(j, k) && RowsKept(ms, after)
    ensures RelatesRows(after, k)
  {
    hide RefsGrow, StatusMoves;
    var from, to :| from in ms && to in ms && Sound(from, to, j);
    var a :| 0 <= a < |ms| && ms[a] == from;
    var b :| 0 <= b < |ms| && ms[b] == to;
    assert RowKept(ms[a], after[a]) && RowKept(ms[b], after[b]);
    assert after[a] in after && after[b] in after && Sound(after[a], after[b], k);
  }

  lemma ProposalsOnlyAppend(p: Primitives, s: State, op: Op)
    requires Inv(p, s) && LegalOp(s, op) && !op.Propose?
    ensures |Step(p, s, op).judgments| == |s.judgments|
  {
    hide Inv, AdjudicateStep, AdjudicationCheck, LedgerKey, GateStep, LinkStep, SaveStep, ApproveStep, ReviewStep, AdjudicatedPayload;
    if MemoryOp(op) {
      MemoryOpKeepsJudgments(p, s, op, Step(p, s, op));
    } else if op.Adjudicate? {
      var Adjudicate(v, c, who, policy, eventId, supersedeEventId, now) := op;
      VerdictCommitsIff(p, s, v, c, who, policy, eventId, supersedeEventId, now);
    }
  }

  /** Every judgment of a run relates two different stored rows of its tenant and company, by one of the proposable
      relations, and was proposed by an agent or a system; it belongs to a fiscal period only if both rows do. */
  lemma {:induction false} JudgmentsRelateRows(p: Primitives, ops: seq<Op>, i: nat)
    requires LegalRun(p, ops) && i < |Run(p, ops).judgments|
    ensures RelatesRows(Run(p, ops).memories, Run(p, ops).judgments[i])
  {
    hide RelatesRows, Inv, Step, RowsKept, LegalOp;
    var shorter, op := ops[..|ops| - 1], ops[|ops| - 1];
    var s, after := Run(p, shorter), Run(p, ops);
    RunKeepsInv(p, shorter);
    StepKeepsInv(p, s, op, after);
    StepKeepsRows(p, s, op);
    if i < |s.judgments| {
      JudgmentsRelateRows(p, shorter, i);
      assert SameSubject(s.judgments[i], after.judgments[i]);
      SoundStays(s.memories, after.memories, s.judgments[i], after.judgments[i]);
    } else {
      if !op.Propose? {
        ProposalsOnlyAppend(p, s, op);
      }
      StepProposes(p, s, op, i);
    }
  }

  lemma StepProposes(p: Primitives, s: State, op: Op, i: nat)
    requires op.Propose? && |s.judgments| <= i < |Step(p, s, op).judgments|
    ensures i == |s.judgments| && RelatesRows(Step(p, s, op).memories, Step(p, s, op).judgments[i])
  {
    hide RelatesRows;
    NewJudgmentIsSound(p, s, op.proposal, op.caller, op.id, op.now, Step(p, s, op));
    ProposeWrites(p, s, op.proposal, op.caller, op.id, op.now);
  }

  // ------------------------------------------------------------------------- events

  /** How the events of judgments grow: a verdict writes its decision first, a withdrawal only itself. */
  lemma EventsGrow(p: Primitives, s: State, op: Op)
    requires Inv(p, s) && LegalOp(s, op) && Step(p, s, op).judgmentEvents != s.judgmentEvents
    ensures
      var es, n := Step(p, s, op).judgmentEvents, |s.judgmentEvents|;
      && n < |es| && es[..n] == s.judgmentEvents
      && (forall k | n < k < |es| :: es[k].action == SupersedeAction)
      && (es[n].action in {ConfirmAction, RejectAction} ==> exists j :: DecidedBy(p, s, op, es[n], j))
  {
    hide Inv, AdjudicateStep, LedgerKey, GateStep, LinkStep, SaveStep, ApproveStep, ReviewStep, MayDecide, TellsVerdict;
    if MemoryOp(op) {
      MemoryOpKeepsJudgments(p, s, op, Step(p, s, op));
    } else if op.Adjudicate? {
      var Adjudicate(v, c, who, policy, eventId, supersedeEventId, now) := op;
      var j := VerdictRecords(p, s, v, c, who, policy, eventId, supersedeEventId, now);
      assert DecidedBy(p, s, op, Step(p, s, op).judgmentEvents[|s.judgmentEvents|], j);
    }
  }

  /** The verdict that wrote an event, in the store it found. */
  predicate DecidedBy(p: Primitives, s: State, op: Op, e: JudgmentEvent, j: Judgment) {
    && op.Adjudicate? && j in s.judgments
    && MayDecide(p, s.judgments, op.verdict, op.adjudication, op.who, op.judgmentPolicy, j)
    && TellsVerdict(p, e, op.verdict, op.adjudication, op.who, j, op.judgmentPolicy(op.who, j).policyVersion, op.eventId, op.now)
  }

  /** Every confirmation and rejection was written by one verdict of the run, about an open proposal reviewed as it
      stood, which the policy of that verdict allowed. */
  lemma {:induction false} VerdictsWereAllowed(p: Primitives, ops: seq<Op>, k: nat) returns (n: nat, j: Judgment)
    requires LegalRun(p, ops) && k < |Run(p, ops).judgmentEvents|
    requires Run(p, ops).judgmentEvents[k].action in {ConfirmAction, RejectAction}
    ensures n < |ops| && |Run(p, ops[..n]).judgmentEvents| == k
    ensures DecidedBy(p, Run(p, ops[..n]), ops[n], Run(p, ops).judgmentEvents[k], j)
  {
    hide DecidedBy, Step, Inv, LegalOp;
    var shorter := ops[..|ops| - 1];
    var s := Run(p, shorter);
    RunKeepsInv(p, shorter);
    if Run(p, ops).judgmentEvents == s.judgmentEvents {
      n, j := VerdictsWereAllowed(p, shorter, k);
      assert shorter[..n] == ops[..n];
    } else {
      EventsGrow(p, s, ops[|ops| - 1]);
      assert Run(p, ops).judgmentEvents[..|s.judgmentEvents|] == s.judgmentEvents;
      if k < |s.judgmentEvents| {
        n, j := VerdictsWereAllowed(p, shorter, k);
        assert shorter[..n] == ops[..n];
      } else {
        n := |ops| - 1;
        j :| DecidedBy(p, s, ops[n], Run(p, ops).judgmentEvents[k], j);
      }
    }
  }
}
