/** Which steps keep the recorded 'supersedes' relations in agreement with the rows. */
module StoreRouting {
  import opened Records
  import opened StoreModel
  import Text
  import opened JudgmentModel
  import opened RevisionChains
  import opened StatusLog
  import opened StoreInvariants
  import opened StoreSteps
  import opened JudgmentChains
  import opened StoreRuns
  import opened SupersessionWalk

  /** Relations start at stored rows, and judgments relate stored rows. */
  ghost predicate EndsKnown(s: State) {
    && (forall k | 0 <= k < |s.relations| :: FindMemory(s.memories, s.relations[k].fromId) >= 0)
    && (forall k | 0 <= k < |s.judgments| ::
          FindMemory(s.memories, s.judgments[k].fromId) >= 0 && FindMemory(s.memories, s.judgments[k].toId) >= 0)
  }

  /** Judgments keep the rows they relate. */
  ghost predicate SameEnds(js: seq<Judgment>, after: seq<Judgment>) {
    |after| == |js| && forall k | 0 <= k < |js| :: after[k].fromId == js[k].fromId && after[k].toId == js[k].toId
  }

  /** Rows keep their ids and their routes. */
  ghost predicate SameRoutes(ms: seq<Memory>, after: seq<Memory>) {
    && |after| == |ms|
    && forall i | 0 <= i < |ms| ::
         && after[i].id == ms[i].id && after[i].supersedesId == ms[i].supersedesId
         && (after[i].status == Superseded <==> ms[i].status == Superseded)
  }

  lemma SameRoutesKeepEnds(s: State, after: State)
    requires EndsKnown(s) && SameRoutes(s.memories, after.memories)
    requires after.relations == s.relations && after.judgments == s.judgments
    ensures EndsKnown(after) && (Routed(after) <==> Routed(s))
  {
    forall k | 0 <= k < |s.relations| ensures FindMemory(after.memories, s.relations[k].fromId) >= 0 {
      StoreInvariants.FindStable(s.memories, after.memories, s.relations[k].fromId);
    }
    forall k | 0 <= k < |s.judgments|
      ensures FindMemory(after.memories, s.judgments[k].fromId) >= 0 && FindMemory(after.memories, s.judgments[k].toId) >= 0
    {
      StoreInvariants.FindStable(s.memories, after.memories, s.judgments[k].fromId);
      StoreInvariants.FindStable(s.memories, after.memories, s.judgments[k].toId);
    }
    forall i | 0 <= i < |s.memories|
      ensures RoutedRow(s.relations, s.memories[i]) <==> RoutedRow(after.relations, after.memories[i])
    {
    }
    if Routed(s) {
      assert forall i | 0 <= i < |after.memories| :: RoutedRow(s.relations, s.memories[i]);
    }
    if Routed(after) {
      assert forall i | 0 <= i < |s.memories| :: RoutedRow(after.relations, after.memories[i]);
    }
  }

  lemma RowKeepsRoutes(ms: seq<Memory>, at: nat, m: Memory)
    requires at < |ms| && m.id == ms[at].id && m.supersedesId == ms[at].supersedesId
    requires m.status == Superseded <==> ms[at].status == Superseded
    ensures SameRoutes(ms, ms[at := m])
  {
  }

  lemma GateKeepsRoutes(p: Primitives, s: State, memoryId: string, to: Status, actor: string, actorKind: ActorKind,
                        now: string, after: State)
    requires GateTarget(to) && after == GateStep(p, s, memoryId, to, actor, actorKind, now).0
    ensures SameRoutes(s.memories, after.memories)
  {
    var at := FindMemory(s.memories, memoryId);
    if at >= 0 && GateAllows(s.memories[at].status, to, actorKind) {
      var before := s.memories[at];
      var m := WithStatus(p, before, to);
      var s1 := s.(memories := s.memories[at := m],
                   transitions := s.transitions + [Transition(memoryId, before.status, to, actor, actorKind, now)]);
      EmitOnlySigns(p, s1, TransitionPayload(p, before, m, actor, now));
      RowKeepsRoutes(s.memories, at, m);
      assert after.memories == s1.memories;
    }
  }

  lemma LinkKeepsRoutes(p: Primitives, s: State, kind: LinkKind, memoryId: string, ref: string, actor: string,
                        now: string, after: State)
    requires after == LinkStep(p, s, kind, memoryId, ref, actor, now).0
    ensures SameRoutes(s.memories, after.memories)
  {
    var at := FindMemory(s.memories, memoryId);
    if !Text.Blank(ref) && at >= 0 && ref !in RefsOf(s.memories[at], kind) {
      var before := s.memories[at];
      var m := Linked(p, before, kind, ref);
      var s1 := s.(memories := s.memories[at := m]);
      EmitOnlySigns(p, s1, LinkedPayload(p, before, m, ref, actor, now));
      RowKeepsRoutes(s.memories, at, m);
      assert after.memories == s1.memories;
    }
  }

  lemma DecideKeepsRoutes(p: Primitives, s: State, at: nat, to: Status, c: ApproveCommand, who: Principal,
                          policyVersion: string, now: string, decided: State)
    requires at < |s.memories| && s.memories[at].status == PendingReview && to != Superseded
    requires decided == Decide(p, s, at, to, c, who, policyVersion, now)
    ensures SameRoutes(s.memories, decided.memories)
  {
  }

  lemma ApproveKeepsRoutes(p: Primitives, s: State, c: ApproveCommand, who: Principal, policy: ApprovalPolicy,
                           eventId: string, now: string, after: State)
    requires after == ApproveStep(p, s, c, who, policy, eventId, now).0
    ensures SameRoutes(s.memories, after.memories)
  {
    var check := ApprovalCheck(p, s, c, who, policy);
    if after != s && check.Ok? {
      var decided := Decide(p, s, check.value.0, Approved, c, who, check.value.1, now);
      DecideKeepsRoutes(p, s, check.value.0, Approved, c, who, check.value.1, now, decided);
    }
  }

  lemma ReviewKeepsRoutes(p: Primitives, s: State, c: ApproveCommand, who: Principal, d: Decision,
                          eventId: string, now: string, after: State)
    requires after == ReviewStep(p, s, c, who, d, eventId, now).0
    ensures SameRoutes(s.memories, after.memories)
  {
    var check := ReviewCheck(p, s, c, who, d);
    if after != s && check.Ok? {
      var decided := Decide(p, s, check.value, StatusOf(d), c, who, KERNEL_POLICY_VERSION, now);
      DecideKeepsRoutes(p, s, check.value, StatusOf(d), c, who, KERNEL_POLICY_VERSION, now, decided);
    }
  }

  // -------------------------------------------------------------------- save

  /** No relation starts at a row that is not stored. */
  lemma {:induction false} UnknownHasNoSuccessor(ms: seq<Memory>, relations: seq<Relation>, id: string)
    requires forall k | 0 <= k < |relations| :: FindMemory(ms, relations[k].fromId) >= 0
    requires FindMemory(ms, id) < 0
    ensures Successor(relations, id) == None
  {
    if relations != [] {
      assert relations[0].fromId != id;
      UnknownHasNoSuccessor(ms, relations[1..], id);
    }
  }

  lemma SupersedingKeepsRouted(s: State, after: State, at: nat, m: Memory, r: Relation)
    requires EndsKnown(s) && Routed(s) && DistinctIds(s.memories) && at < |s.memories|
    requires s.memories[at].status != Superseded && m.status != Superseded && FindMemory(s.memories, m.id) < 0
    requires after.memories == s.memories[at := Replacing(s.memories[at], m)] + [m]
    requires r.fromId == s.memories[at].id && r.toId == m.id && r.relation == Supersedes
    requires after.relations == s.relations + [r]
    ensures Routed(after)
  {
    UnknownHasNoSuccessor(s.memories, s.relations, m.id);
    forall i | 0 <= i < |after.memories| ensures RoutedRow(after.relations, after.memories[i]) {
      SuccessorAppend(s.relations, r, after.memories[i].id);
      assert i < |s.memories| ==> RoutedRow(s.relations, s.memories[i]);
    }
  }

  lemma StoringKeepsRouted(s: State, after: State, m: Memory)
    requires EndsKnown(s) && Routed(s) && m.status != Superseded && FindMemory(s.memories, m.id) < 0
    requires after.memories == s.memories + [m] && after.relations == s.relations
    ensures Routed(after)
  {
    UnknownHasNoSuccessor(s.memories, s.relations, m.id);
    forall i | 0 <= i < |after.memories| ensures RoutedRow(after.relations, after.memories[i]) {
      assert i < |s.memories| ==> RoutedRow(s.relations, s.memories[i]);
    }
  }

  lemma SaveKeepsEnds(p: Primitives, s: State, m: Memory, after: State)
    requires EndsKnown(s) && FindMemory(s.memories, m.id) < 0
    requires after == SaveState(p, s, m)
    ensures EndsKnown(after)
  {
    SaveOnlySigns(p, s, m, after);
    StoringKeepsEnds(p, s, m, StoredState(p, s, m));
  }

  lemma KnownStays(ms: seq<Memory>, after: seq<Memory>, id: string)
    requires KeepsSubjects(ms, after) && FindMemory(ms, id) >= 0
    ensures FindMemory(after, id) >= 0
  {
    StoreInvariants.FindStable(ms, after, id);
  }

  /** Ends stay known as rows are only appended. */
  lemma EndsStayKnown(s: State, after: State)
    requires EndsKnown(s) && KeepsSubjects(s.memories, after.memories) && after.judgments == s.judgments
    requires after.relations == s.relations ||
             (|after.relations| == |s.relations| + 1 && after.relations[..|s.relations|] == s.relations &&
              FindMemory(s.memories, after.relations[|s.relations|].fromId) >= 0)
    ensures EndsKnown(after)
  {
    hide KeepsSubjects, FindMemory;
    forall k | 0 <= k < |after.relations| ensures FindMemory(after.memories, after.relations[k].fromId) >= 0 {
      assert k < |s.relations| ==> after.relations[k] == s.relations[k];
      KnownStays(s.memories, after.memories, after.relations[k].fromId);
    }
    forall k | 0 <= k < |s.judgments|
      ensures FindMemory(after.memories, s.judgments[k].fromId) >= 0 && FindMemory(after.memories, s.judgments[k].toId) >= 0
    {
      KnownStays(s.memories, after.memories, s.judgments[k].fromId);
      KnownStays(s.memories, after.memories, s.judgments[k].toId);
    }
  }

  lemma StoringKeepsEnds(p: Primitives, s: State, m: Memory, stored: State)
    requires EndsKnown(s) && FindMemory(s.memories, m.id) < 0
    requires stored == StoredState(p, s, m)
    ensures EndsKnown(stored)
  {
    hide EndsKnown;
    var at := LatestAt(p, s.memories, KeyOf(p, m));
    SavedKeepsSubjects(p, s.memories, m, stored.memories);
    if at >= 0 {
      assert FindMemory(s.memories, s.memories[at].id) >= 0;
    }
    EndsStayKnown(s, stored);
  }

  lemma SaveKeepsRouted(p: Primitives, s: State, m: Memory, after: State)
    requires RowsOk(p, s.memories) && EndsKnown(s) && Routed(s) && FreshRevision(p, s, m)
    requires after == SaveState(p, s, m)
    ensures Routed(after)
  {
    SaveOnlySigns(p, s, m, after);
    var at := LatestAt(p, s.memories, KeyOf(p, m));
    if at >= 0 && CanVoid(s.memories[at].status) {
      SupersedingKeepsRouted(s, after, at, m, after.relations[|s.relations|]);
    } else {
      StoringKeepsRouted(s, after, m);
    }
  }

  // --------------------------------------------------------------- judgments

  /** Ends stay known as judgments keep theirs, and appended ones relate stored rows. */
  lemma JudgedEndsStayKnown(s: State, after: State)
    requires EndsKnown(s) && after.memories == s.memories && after.relations == s.relations
    requires |s.judgments| <= |after.judgments| && SameEnds(s.judgments, after.judgments[..|s.judgments|])
    requires forall k | |s.judgments| <= k < |after.judgments| ::
      FindMemory(s.memories, after.judgments[k].fromId) >= 0 && FindMemory(s.memories, after.judgments[k].toId) >= 0
    ensures EndsKnown(after)
  {
    hide FindMemory;
    forall k | 0 <= k < |s.judgments|
      ensures after.judgments[k].fromId == s.judgments[k].fromId && after.judgments[k].toId == s.judgments[k].toId
    {
      assert after.judgments[..|s.judgments|][k] == after.judgments[k];
    }
  }

  lemma ProposeShapes(p: Primitives, s: State, c: ProposeCommand, caller: Source, id: string, now: string, after: State)
    requires EndsKnown(s) && after == ProposeStep(p, s, c, caller, id, now).0
    ensures after.memories == s.memories && after.relations == s.relations && EndsKnown(after)
  {
    hide LedgerKey, BoundTo, EndsKnown, FindMemory, ProposalCheck, ProposeHash;
    var scope := ProposalScope(s, c, caller);
    if after != s && scope.Ok? {
      var last := after.judgments[|after.judgments| - 1];
      assert last.fromId == c.fromId && last.toId == c.toId;
      assert SameEnds(s.judgments, after.judgments[..|s.judgments|]);
      JudgedEndsStayKnown(s, after);
    }
  }

  lemma WithdrawShapes(p: Primitives, s: State, judgmentId: string, requestId: string, caller: Source,
                       eventId: string, now: string, after: State)
    requires EndsKnown(s) && after == WithdrawStep(p, s, judgmentId, requestId, caller, eventId, now).0
    ensures after.memories == s.memories && after.relations == s.relations && EndsKnown(after)
  {
    hide LedgerKey, BoundTo, FindMemory, EndsKnown;
    assert SameEnds(s.judgments, after.judgments);
    assert after.judgments[..|s.judgments|] == after.judgments;
    JudgedEndsStayKnown(s, after);
  }

  /** The judgment that an adjudication confirms, when its guards hold. */
  function Confirms(p: Primitives, s: State, v: Verdict, c: AdjudicateCommand, who: Principal, policy: JudgmentPolicy): Option<Judgment>
  {
    if v.Confirm? && VerdictGuards(p, s, v, c, who, policy)
    then Some(s.judgments[AdjudicationCheck(p, s, v, c, who, policy).value.0]) else None
  }

  lemma AdjudicateShapes(p: Primitives, s: State, v: Verdict, c: AdjudicateCommand, who: Principal,
                         policy: JudgmentPolicy, eventId: string, supersedeEventId: string, now: string, after: State)
    requires after == AdjudicateStep(p, s, v, c, who, policy, eventId, supersedeEventId, now).0
    ensures after.memories == s.memories && SameEnds(s.judgments, after.judgments)
    ensures
      var j := Confirms(p, s, v, c, who, policy);
      after.relations == if j.None? then s.relations
                         else WithRelation(s.relations, Relation(j.value.fromId, j.value.toId, j.value.relation, who.subjectId, now))
  {
    hide AdjudicateStep, AdjudicationCheck, WithRelation, AdjudicatedPayload, AdjudicateHash;
    VerdictCommitsIff(p, s, v, c, who, policy, eventId, supersedeEventId, now);
    if VerdictGuards(p, s, v, c, who, policy) {
      var (at, policyVersion, pred) := AdjudicationCheck(p, s, v, c, who, policy).value;
      VerdictShapes(p, s, v, c, who, at, policyVersion, pred, eventId, supersedeEventId, now, after);
    }
  }

  lemma VerdictShapes(p: Primitives, s: State, v: Verdict, c: AdjudicateCommand, who: Principal, at: nat,
                      policyVersion: string, pred: int, eventId: string, supersedeEventId: string, now: string, after: State)
    requires at < |s.judgments| && -1 <= pred < |s.judgments|
    requires after == CommitVerdict(p, s, v, c, who, at, policyVersion, pred, eventId, supersedeEventId, now).0
    ensures after.memories == s.memories && SameEnds(s.judgments, after.judgments)
    ensures
      var j := s.judgments[at];
      after.relations == if v.Confirm? then WithRelation(s.relations, Relation(j.fromId, j.toId, j.relation, who.subjectId, now))
                         else s.relations
  {
    hide WithRelation, AdjudicatedPayload, LedgerKey;
    var decided := Adjudicated(p, s.judgments[at], v, c, who, policyVersion, now);
    assert after.judgments == WithVerdict(s.judgments, at, decided, pred, now);
  }

  lemma RelatedKeepsEnds(s: State, after: State, r: Relation)
    requires EndsKnown(s) && FindMemory(s.memories, r.fromId) >= 0
    requires after.memories == s.memories && after.relations == WithRelation(s.relations, r)
    requires SameEnds(s.judgments, after.judgments)
    ensures EndsKnown(after)
  {
  }

  /** A recorded relation keeps the routing exactly when it is not a 'supersedes' from a row that is
      still current. */
  lemma RelatedRoutingIff(s: State, after: State, r: Relation)
    requires Routed(s) && DistinctIds(s.memories) && FindMemory(s.memories, r.fromId) >= 0
    requires after.memories == s.memories && after.relations == WithRelation(s.relations, r)
    ensures Routed(after) <==>
            !(r.relation == Supersedes && s.memories[FindMemory(s.memories, r.fromId)].status != Superseded)
  {
    var at := FindMemory(s.memories, r.fromId);
    assert RoutedRow(s.relations, s.memories[at]);
    if after.relations == s.relations {
      if r.relation == Supersedes {
        var k :| 0 <= k < |s.relations| && s.relations[k].fromId == r.fromId && s.relations[k].toId == r.toId &&
                 s.relations[k].relation == r.relation;
        RecordedHasSuccessor(s.relations, k);
      }
      assert forall i | 0 <= i < |after.memories| :: RoutedRow(s.relations, s.memories[i]);
    } else {
      SuccessorAppend(s.relations, r, s.memories[at].id);
      if r.relation == Supersedes && s.memories[at].status != Superseded {
        assert !RoutedRow(after.relations, after.memories[at]);
      } else {
        forall i | 0 <= i < |after.memories| ensures RoutedRow(after.relations, after.memories[i]) {
          assert RoutedRow(s.relations, s.memories[i]);
          SuccessorAppend(s.relations, r, s.memories[i].id);
        }
      }
    }
  }

  // ------------------------------------------------------------------- steps

  /** Operations on one stored row keep relations, judgments and routes. */
  predicate RowOp(op: Op) {
    op.Gate? || op.Link? || op.Approve? || op.Review?
  }

  lemma RowOpKeepsRoutes(p: Primitives, s: State, op: Op, after: State)
    requires LegalOp(s, op) && RowOp(op) && after == Step(p, s, op)
    ensures SameRoutes(s.memories, after.memories) && after.relations == s.relations && after.judgments == s.judgments
  {
    match op {
      case Gate(memoryId, to, actor, actorKind, now) =>
        GateKeepsRoutes(p, s, memoryId, to, actor, actorKind, now, after);
        GateKeepsJudgments(p, s, memoryId, to, actor, actorKind, now, after);
      case Link(kind, memoryId, ref, actor, now) =>
        LinkKeepsRoutes(p, s, kind, memoryId, ref, actor, now, after);
        LinkKeepsJudgments(p, s, kind, memoryId, ref, actor, now, after);
      case Approve(c, who, policy, eventId, now) =>
        ApproveKeepsRoutes(p, s, c, who, policy, eventId, now, after);
        ApproveKeepsJudgments(p, s, c, who, policy, eventId, now, after);
      case Review(c, who, d, eventId, now) =>
        ReviewKeepsRoutes(p, s, c, who, d, eventId, now, after);
        ReviewKeepsJudgments(p, s, c, who, d, eventId, now, after);
      case _ => assert false;
    }
  }

  lemma StepKeepsEnds(p: Primitives, s: State, op: Op, after: State)
    requires Inv(p, s) && EndsKnown(s) && LegalOp(s, op) && after == Step(p, s, op)
    ensures EndsKnown(after)
  {
    if RowOp(op) {
      RowOpKeepsRoutes(p, s, op, after);
      SameRoutesKeepEnds(s, after);
    } else {
      match op
      case Save(input, id, now) =>
        if SaveRefusal(p, s, input, now).None? {
          SaveKeepsEnds(p, s, RevisionFor(p, s, input, id, now), after);
        }
      case Propose(c, caller, id, now) => ProposeShapes(p, s, c, caller, id, now, after);
      case Withdraw(judgmentId, requestId, caller, eventId, now) =>
        WithdrawShapes(p, s, judgmentId, requestId, caller, eventId, now, after);
      case Adjudicate(v, c, who, policy, eventId, supersedeEventId, now) => AdjudicateKeepsEnds(p, s, op, after);
      case _ => assert false;
    }
  }

  lemma AdjudicateKeepsEnds(p: Primitives, s: State, op: Op, after: State)
    requires EndsKnown(s) && op.Adjudicate? && after == Step(p, s, op)
    ensures EndsKnown(after)
  {
    var Adjudicate(v, c, who, policy, eventId, supersedeEventId, now) := op;
    AdjudicateShapes(p, s, v, c, who, policy, eventId, supersedeEventId, now, after);
    var j := Confirms(p, s, v, c, who, policy);
    if j.Some? {
      RelatedKeepsEnds(s, after, Relation(j.value.fromId, j.value.toId, j.value.relation, who.subjectId, now));
    }
  }

  /** The one operation that records a route the rows do not have: an adjudication, past its guards, that
      confirms a 'supersedes' judgment from a row that is still current. */
  predicate Misroutes(p: Primitives, s: State, op: Op) {
    match op
    case Adjudicate(v, c, who, policy, eventId, supersedeEventId, now) =>
      var j := Confirms(p, s, v, c, who, policy);
      j.Some? && j.value.relation == Supersedes &&
      (var at := FindMemory(s.memories, j.value.fromId); at >= 0 && s.memories[at].status != Superseded)
    case _ => false
  }

  lemma AdjudicateRoutingIff(p: Primitives, s: State, op: Op, after: State)
    requires Inv(p, s) && EndsKnown(s) && Routed(s) && op.Adjudicate? && after == Step(p, s, op)
    ensures Routed(after) <==> !Misroutes(p, s, op)
  {
    var Adjudicate(v, c, who, policy, eventId, supersedeEventId, now) := op;
    AdjudicateShapes(p, s, v, c, who, policy, eventId, supersedeEventId, now, after);
    var j := Confirms(p, s, v, c, who, policy);
    if j.Some? {
      RelatedRoutingIff(s, after, Relation(j.value.fromId, j.value.toId, j.value.relation, who.subjectId, now));
    } else {
      SameRowsStayRouted(s, after);
    }
  }

  /** Every step keeps relations and rows in agreement, but for that one. */
  lemma StepRoutingIff(p: Primitives, s: State, op: Op, after: State)
    requires Inv(p, s) && EndsKnown(s) && Routed(s) && LegalOp(s, op) && after == Step(p, s, op)
    ensures Routed(after) <==> !Misroutes(p, s, op)
  {
    hide DecisionPart, ReceiptPart, JudgmentsOk, JudgmentLedgerOk, JudgmentsAnchored, LogOk, CacheFresh;
    if RowOp(op) {
      RowOpKeepsRoutes(p, s, op, after);
      SameRoutesKeepEnds(s, after);
    } else if op.Adjudicate? {
      AdjudicateRoutingIff(p, s, op, after);
    } else if op.Save? {
      if SaveRefusal(p, s, op.input, op.now).None? {
        RevisionForIsFresh(p, s, op.input, op.id, op.now);
        SaveKeepsRouted(p, s, RevisionFor(p, s, op.input, op.id, op.now), after);
      }
    } else {
      match op
      case Propose(c, caller, id, now) => ProposeShapes(p, s, c, caller, id, now, after);
      case Withdraw(judgmentId, requestId, caller, eventId, now) =>
        WithdrawShapes(p, s, judgmentId, requestId, caller, eventId, now, after);
      case _ => assert false;
      SameRowsStayRouted(s, after);
    }
  }

  lemma SameRowsStayRouted(s: State, after: State)
    requires Routed(s) && after.memories == s.memories && after.relations == s.relations
    ensures Routed(after)
  {
    assert forall i | 0 <= i < |after.memories| :: RoutedRow(s.relations, s.memories[i]);
  }

  lemma {:induction false} RunKeepsEnds(p: Primitives, ops: seq<Op>)
    requires LegalRun(p, ops)
    ensures EndsKnown(Run(p, ops))
  {
    if ops != [] {
      var before := Run(p, ops[..|ops| - 1]);
      RunKeepsEnds(p, ops[..|ops| - 1]);
      RunKeepsInv(p, ops[..|ops| - 1]);
      StepKeepsEnds(p, before, ops[|ops| - 1], Run(p, ops));
    }
  }

  /** No step of the run records such a route. */
  predicate RoutedRun(p: Primitives, ops: seq<Op>) {
    ops == [] || (RoutedRun(p, ops[..|ops| - 1]) && !Misroutes(p, Run(p, ops[..|ops| - 1]), ops[|ops| - 1]))
  }

  lemma {:induction false} RoutedRunsStayRouted(p: Primitives, ops: seq<Op>)
    requires LegalRun(p, ops) && RoutedRun(p, ops)
    ensures Routed(Run(p, ops))
  {
    if ops != [] {
      var before := Run(p, ops[..|ops| - 1]);
      RoutedRunsStayRouted(p, ops[..|ops| - 1]);
      RunKeepsInv(p, ops[..|ops| - 1]);
      RunKeepsEnds(p, ops[..|ops| - 1]);
      StepRoutingIff(p, before, ops[|ops| - 1], Run(p, ops));
    }
  }

  /** In every such run, the walk from any revision of a chain that lies in one scope passes the check. */
  lemma RoutedRunsWalkClean(p: Primitives, ops: seq<Op>, at: nat, scope: SubjectScope)
    requires LegalRun(p, ops) && RoutedRun(p, ops) && at < |Run(p, ops).memories|
    requires OneScope(p, Run(p, ops).memories, KeyOf(p, Run(p, ops).memories[at]), scope)
    ensures Verification.CleanWalk(Walk(Run(p, ops).memories, Run(p, ops).relations, at, {}), scope)
  {
    RunKeepsInv(p, ops);
    RoutedRunsStayRouted(p, ops);
    RoutedWalkIsClean(p, Run(p, ops), at, {}, scope);
  }

  /** The step that misroutes leaves a row whose walk fails. */
  lemma MisroutingFailsTheWalk(p: Primitives, s: State, op: Op, after: State, scope: SubjectScope) returns (at: nat)
    requires Inv(p, s) && EndsKnown(s) && Routed(s) && Misroutes(p, s, op) && after == Step(p, s, op)
    ensures at < |after.memories| && !Verification.CleanWalk(Walk(after.memories, after.relations, at, {}), scope)
  {
    var Adjudicate(v, c, who, policy, eventId, supersedeEventId, now) := op;
    AdjudicateShapes(p, s, v, c, who, policy, eventId, supersedeEventId, now, after);
    var j := Confirms(p, s, v, c, who, policy).value;
    var r := Relation(j.fromId, j.toId, j.relation, who.subjectId, now);
    at := FindMemory(s.memories, j.fromId);
    assert RoutedRow(s.relations, s.memories[at]);
    if after.relations == s.relations {
      var k :| 0 <= k < |s.relations| && s.relations[k].fromId == r.fromId && s.relations[k].toId == r.toId &&
               s.relations[k].relation == r.relation;
      RecordedHasSuccessor(s.relations, k);
      assert false;
    } else {
      SuccessorAppend(s.relations, r, s.memories[at].id);
      UnroutedWalkFails(after, at, scope);
    }
  }
}
