/** The relations of a run and what caused them: a supersession of rows, or a confirmed judgment. */
module StoreRelations {
  import opened Text
  import opened Records
  import opened StoreModel
  import opened JudgmentModel
  import opened JudgmentChains
  import opened RevisionChains
  import opened StoreInvariants
  import opened StoreSteps
  import opened StoreRuns
  import opened StoreRows
  import opened StoreRouting
  import opened StoreJournal
  import opened StoreJudgments

  predicate SameTriple(a: Relation, b: Relation) {
    a.fromId == b.fromId && a.toId == b.toId && a.relation == b.relation
  }

  /** The row that a relation starts from gave way to the one it ends at, when that one was recorded. */
  ghost predicate RowGaveWay(ms: seq<Memory>, r: Relation) {
    r.relation == MemoryRelation.Supersedes &&
    exists m, next | m in ms && next in ms ::
      && m.id == r.fromId && m.status == Superseded && m.supersedesId == r.toId
      && next.id == r.toId && r.actor == next.source.actorId && r.timestamp == next.recordedAt
  }

  /** A judgment was confirmed in these words, by the relation's actor at its instant. */
  ghost predicate WasConfirmed(js: seq<Judgment>, r: Relation) {
    exists j | j in js ::
      && j.adjudicator.Some? && j.status in {Confirmed, Replaced}
      && j.fromId == r.fromId && j.toId == r.toId && j.relation == r.relation
      && r.actor == j.adjudicator.value.subjectId && r.timestamp == j.decidedAt
  }

  ghost predicate Recorded(relations: seq<Relation>, fromId: string, toId: string, relation: MemoryRelation) {
    exists r | r in relations :: r.fromId == fromId && r.toId == toId && r.relation == relation
  }

  ghost predicate DistinctTriples(relations: seq<Relation>) {
    forall i, j | 0 <= i < j < |relations| :: !SameTriple(relations[i], relations[j])
  }

  /** Every relation has its cause, every cause its relation, and none is recorded twice. */
  ghost predicate RelationsCaused(s: State) {
    && (forall r | r in s.relations :: RowGaveWay(s.memories, r) || WasConfirmed(s.judgments, r))
    && (forall m | m in s.memories && m.status == Superseded :: Recorded(s.relations, m.id, m.supersedesId, MemoryRelation.Supersedes))
    && (forall j | j in s.judgments && j.adjudicator.Some? && j.status != Declined :: Recorded(s.relations, j.fromId, j.toId, j.relation))
    && DistinctTriples(s.relations)
  }

  // ----------------------------------------------------------------------- keeping

  /** A judgment keeps its ends, and its verdict once it has one; only a confirmed one may be replaced then. */
  predicate JudgmentKept(a: Judgment, b: Judgment) {
    && b.id == a.id && b.fromId == a.fromId && b.toId == a.toId && b.relation == a.relation
    && (a.adjudicator.Some? ==>
          b.adjudicator == a.adjudicator && b.decidedAt == a.decidedAt &&
          (b.status == a.status || (a.status == Confirmed && b.status == Replaced)))
  }

  ghost predicate JudgmentsKept(js: seq<Judgment>, after: seq<Judgment>) {
    |js| <= |after| && forall i | 0 <= i < |js| :: JudgmentKept(js[i], after[i])
  }

  lemma KeptFacts(a: Memory, b: Memory)
    requires RowKept(a, b)
    ensures b.id == a.id && b.source == a.source && b.recordedAt == a.recordedAt
    ensures a.status == Superseded ==> b.status == Superseded && b.supersedesId == a.supersedesId
  {
    hide RefsGrow;
  }

  lemma RowCauseStays(ms: seq<Memory>, after: seq<Memory>, r: Relation)
    requires RowsKept(ms, after) && RowGaveWay(ms, r)
    ensures RowGaveWay(after, r)
  {
    hide RowKept;
    var m, next :| m in ms && next in ms && m.id == r.fromId && m.status == Superseded && m.supersedesId == r.toId &&
                   next.id == r.toId && r.actor == next.source.actorId && r.timestamp == next.recordedAt;
    var a :| 0 <= a < |ms| && ms[a] == m;
    var b :| 0 <= b < |ms| && ms[b] == next;
    KeptFacts(ms[a], after[a]);
    KeptFacts(ms[b], after[b]);
    assert after[a] in after && after[b] in after;
  }

  lemma JudgmentCauseStays(js: seq<Judgment>, after: seq<Judgment>, r: Relation)
    requires JudgmentsKept(js, after) && WasConfirmed(js, r)
    ensures WasConfirmed(after, r)
  {
    var j :| j in js && j.adjudicator.Some? && j.status in {Confirmed, Replaced} && j.fromId == r.fromId && j.toId == r.toId &&
             j.relation == r.relation && r.actor == j.adjudicator.value.subjectId && r.timestamp == j.decidedAt;
    var i :| 0 <= i < |js| && js[i] == j;
    assert JudgmentKept(js[i], after[i]) && after[i] in after;
  }

  lemma RecordedStays(relations: seq<Relation>, after: seq<Relation>, fromId: string, toId: string, relation: MemoryRelation)
    requires Recorded(relations, fromId, toId, relation) && relations <= after
    ensures Recorded(after, fromId, toId, relation)
  {
    var r :| r in relations && r.fromId == fromId && r.toId == toId && r.relation == relation;
    var i :| 0 <= i < |relations| && relations[i] == r;
    assert after[i] == r;
  }

  /** The row that is superseded afterwards was so before, or its relation is recorded now. */
  ghost predicate RowAccounted(s: State, after: State, i: nat)
    requires i < |after.memories|
  {
    var m := after.memories[i];
    m.status == Superseded ==>
      || (i < |s.memories| && s.memories[i].id == m.id && s.memories[i].status == Superseded && s.memories[i].supersedesId == m.supersedesId)
      || Recorded(after.relations, m.id, m.supersedesId, MemoryRelation.Supersedes)
  }

  ghost predicate JudgmentAccounted(s: State, after: State, i: nat)
    requires i < |after.judgments|
  {
    var j := after.judgments[i];
    j.adjudicator.Some? && j.status != Declined ==>
      || (i < |s.judgments| && JudgmentKept(s.judgments[i], j) && s.judgments[i].adjudicator.Some? && s.judgments[i].status != Declined)
      || Recorded(after.relations, j.fromId, j.toId, j.relation)
  }

  /** At most one relation is added: one that has a cause and repeats none. */
  ghost predicate Caused(s: State, after: State) {
    || after.relations == s.relations
    || exists r ::
         && after.relations == s.relations + [r] && (RowGaveWay(after.memories, r) || WasConfirmed(after.judgments, r))
         && forall q | q in s.relations :: !SameTriple(q, r)
  }

  lemma CausedStay(s: State, after: State)
    requires RelationsCaused(s) && RowsKept(s.memories, after.memories) && JudgmentsKept(s.judgments, after.judgments)
    requires Caused(s, after)
    requires forall i | 0 <= i < |after.memories| :: RowAccounted(s, after, i)
    requires forall i | 0 <= i < |after.judgments| :: JudgmentAccounted(s, after, i)
    ensures RelationsCaused(after)
  {
    hide RowGaveWay, WasConfirmed, Recorded, RowsKept, JudgmentsKept;
    assert s.relations <= after.relations;
    forall r | r in after.relations ensures RowGaveWay(after.memories, r) || WasConfirmed(after.judgments, r) {
      if r in s.relations {
        if RowGaveWay(s.memories, r) {
          RowCauseStays(s.memories, after.memories, r);
        } else {
          JudgmentCauseStays(s.judgments, after.judgments, r);
        }
      }
    }
    forall m | m in after.memories && m.status == Superseded ensures Recorded(after.relations, m.id, m.supersedesId, MemoryRelation.Supersedes) {
      var i :| 0 <= i < |after.memories| && after.memories[i] == m;
      assert RowAccounted(s, after, i);
      if !Recorded(after.relations, m.id, m.supersedesId, MemoryRelation.Supersedes) {
        assert s.memories[i] in s.memories;
        RecordedStays(s.relations, after.relations, m.id, m.supersedesId, MemoryRelation.Supersedes);
      }
    }
    forall j | j in after.judgments && j.adjudicator.Some? && j.status != Declined ensures Recorded(after.relations, j.fromId, j.toId, j.relation) {
      var i :| 0 <= i < |after.judgments| && after.judgments[i] == j;
      assert JudgmentAccounted(s, after, i);
      if !Recorded(after.relations, j.fromId, j.toId, j.relation) {
        assert s.judgments[i] in s.judgments;
        RecordedStays(s.relations, after.relations, j.fromId, j.toId, j.relation);
      }
    }
  }

  // ------------------------------------------------------------------------- steps

  lemma SameJudgmentsKept(js: seq<Judgment>)
    ensures JudgmentsKept(js, js)
  {
  }

  /** Steps that supersede no row and leave relations and judgments alone. */
  lemma QuietStep(s: State, after: State)
    requires RelationsCaused(s) && RowsKept(s.memories, after.memories) && SameRoutes(s.memories, after.memories)
    requires after.relations == s.relations && after.judgments == s.judgments
    ensures RelationsCaused(after)
  {
    hide Recorded, RowsKept;
    SameJudgmentsKept(s.judgments);
    CausedStay(s, after);
  }

  lemma SavedRelations(p: Primitives, s: State, m: Memory, after: State)
    requires RelationsCaused(s) && DistinctIds(s.memories) && FindMemory(s.memories, m.id) < 0 && m.status != Superseded
    requires EndsKnown(s) && RowsKept(s.memories, after.memories)
    requires after.memories == Saved(p, s.memories, m) && after.judgments == s.judgments
    requires after.relations == StoredState(p, s, m).relations
    ensures RelationsCaused(after)
  {
    hide RowsKept;
    SameJudgmentsKept(s.judgments);
    var at := LatestAt(p, s.memories, KeyOf(p, m));
    if at >= 0 && CanVoid(s.memories[at].status) {
      var r := SupersedeRelation(s.memories[at], m);
      assert after.memories[at] in after.memories && after.memories[|s.memories|] in after.memories;
      assert after.memories[at] == Replacing(s.memories[at], m) && after.memories[|s.memories|] == m;
      assert RowGaveWay(after.memories, r);
      NewTargetIsFresh(s, r);
      assert r in after.relations;
    }
    CausedStay(s, after);
  }

  /** Recorded relations end at stored rows, so one to a new row repeats none. */
  lemma NewTargetIsFresh(s: State, r: Relation)
    requires RelationsCaused(s) && EndsKnown(s) && FindMemory(s.memories, r.toId) < 0
    ensures forall q | q in s.relations :: !SameTriple(q, r)
  {
    forall q | q in s.relations ensures q.toId != r.toId {
      if !RowGaveWay(s.memories, q) {
        var j :| j in s.judgments && j.toId == q.toId;
        assert FindMemory(s.memories, j.toId) >= 0;
      }
    }
  }

  lemma VerdictRelations(p: Primitives, s: State, v: Verdict, c: AdjudicateCommand, who: Principal, policy: JudgmentPolicy,
                         eventId: string, supersedeEventId: string, now: string, after: State)
    requires RelationsCaused(s) && DistinctJudgments(s.judgments) && Undecided(s.judgments)
    requires after == AdjudicateStep(p, s, v, c, who, policy, eventId, supersedeEventId, now).0
    ensures RelationsCaused(after)
  {
    hide AdjudicationCheck, AdjudicateStep, CommitVerdict, RelationsCaused, Undecided;
    VerdictCommitsIff(p, s, v, c, who, policy, eventId, supersedeEventId, now);
    if VerdictGuards(p, s, v, c, who, policy) {
      var (at, policyVersion, pred) := AdjudicationCheck(p, s, v, c, who, policy).value;
      CommittedRelations(p, s, v, c, who, at, policyVersion, pred, eventId, supersedeEventId, now);
    }
  }

  /** Open proposals carry no verdict. */
  ghost predicate Undecided(js: seq<Judgment>) {
    forall j | j in js && j.status == Proposed :: j.adjudicator.None?
  }

  lemma CommittedRelations(p: Primitives, s: State, v: Verdict, c: AdjudicateCommand, who: Principal, at: nat,
                           policyVersion: string, pred: int, eventId: string, supersedeEventId: string, now: string)
    requires RelationsCaused(s) && DistinctJudgments(s.judgments) && Undecided(s.judgments) && at < |s.judgments| && -1 <= pred < |s.judgments|
    requires s.judgments[at].status == Proposed && (pred >= 0 ==> v.Confirm? && s.judgments[pred].status == Confirmed)
    ensures RelationsCaused(CommitVerdict(p, s, v, c, who, at, policyVersion, pred, eventId, supersedeEventId, now).0)
  {
    hide RelationsCaused, AdjudicatedPayload, LedgerKey, AdjudicateHash, Recorded, WasConfirmed, RowGaveWay;
    var after := CommitVerdict(p, s, v, c, who, at, policyVersion, pred, eventId, supersedeEventId, now).0;
    SameRowsAreKept(s.memories, after.memories);
    DecidedKept(p, s.judgments, v, c, who, at, policyVersion, pred, now);
    var j := s.judgments[at];
    var r := Relation(j.fromId, j.toId, j.relation, who.subjectId, now);
    if v.Confirm? {
      assert after.relations == WithRelation(s.relations, r);
      TripleIsRecorded(s.relations, r);
      NowConfirmed(after.judgments, at, r);
    }
    forall i | 0 <= i < |after.memories| ensures RowAccounted(s, after, i) {
    }
    forall i | 0 <= i < |after.judgments| ensures JudgmentAccounted(s, after, i) {
    }
    CausedStay(s, after);
  }

  lemma NowConfirmed(js: seq<Judgment>, at: nat, r: Relation)
    requires at < |js| && js[at].adjudicator.Some? && js[at].status == Confirmed
    requires js[at].fromId == r.fromId && js[at].toId == r.toId && js[at].relation == r.relation
    requires r.actor == js[at].adjudicator.value.subjectId && r.timestamp == js[at].decidedAt
    ensures WasConfirmed(js, r)
  {
  }

  lemma TripleIsRecorded(relations: seq<Relation>, r: Relation)
    ensures Recorded(WithRelation(relations, r), r.fromId, r.toId, r.relation)
    ensures WithRelation(relations, r) == relations ||
            (WithRelation(relations, r) == relations + [r] && forall q | q in relations :: !SameTriple(q, r))
  {
    if WithRelation(relations, r) == relations + [r] {
      assert r in relations + [r];
    }
  }

  lemma DecidedKept(p: Primitives, js: seq<Judgment>, v: Verdict, c: AdjudicateCommand, who: Principal, at: nat,
                    policyVersion: string, pred: int, now: string)
    requires Undecided(js) && at < |js| && -1 <= pred < |js|
    requires js[at].status == Proposed && (pred >= 0 ==> js[pred].status == Confirmed)
    ensures JudgmentsKept(js, WithVerdict(js, at, Adjudicated(p, js[at], v, c, who, policyVersion, now), pred, now))
  {
    assert js[at] in js;
  }

  lemma OpenAreUndecided(p: Primitives, ops: seq<Op>)
    requires LegalRun(p, ops)
    ensures Undecided(Run(p, ops).judgments)
  {
    hide ToldAt, AsProposed;
    RunsTellJudgments(p, ops);
    var s := Run(p, ops);
    forall j | j in s.judgments && j.status == Proposed ensures j.adjudicator.None? {
      var i :| 0 <= i < |s.judgments| && s.judgments[i] == j;
      ProposedIsUndecided(p, s, i);
    }
  }

  lemma ProposalRelations(p: Primitives, s: State, op: Op)
    requires RelationsCaused(s) && Undecided(s.judgments) && (op.Propose? || op.Withdraw?)
    ensures RelationsCaused(Step(p, s, op))
  {
    hide Recorded, WasConfirmed, RowGaveWay, ProposeStep, WithdrawStep;
    var after := Step(p, s, op);
    if op.Propose? {
      ProposeWrites(p, s, op.proposal, op.caller, op.id, op.now);
    } else {
      WithdrawWrites(p, s, op.judgmentId, op.requestId, op.caller, op.eventId, op.now);
    }
    SameRowsAreKept(s.memories, after.memories);
    OpenRewritten(p, s, op);
    CausedStay(s, after);
  }

  /** Judgments are kept, and none is decided that was not. */
  ghost predicate NoneDecided(js: seq<Judgment>, after: seq<Judgment>) {
    && JudgmentsKept(js, after)
    && forall i | 0 <= i < |after| && after[i].adjudicator.Some? :: i < |js| && after[i] == js[i]
  }

  /** A proposal or a withdrawal touches open proposals only, and decides nothing. */
  lemma OpenRewritten(p: Primitives, s: State, op: Op)
    requires Undecided(s.judgments) && (op.Propose? || op.Withdraw?)
    ensures Step(p, s, op).relations == s.relations && NoneDecided(s.judgments, Step(p, s, op).judgments)
  {
    hide NoneDecided, Undecided, ProposeStep, WithdrawStep;
    if op.Propose? {
      ProposeRewrites(p, s, op.proposal, op.caller, op.id, op.now);
    } else {
      WithdrawRewrites(p, s, op.judgmentId, op.requestId, op.caller, op.eventId, op.now);
    }
  }

  lemma WithdrawRewrites(p: Primitives, s: State, judgmentId: string, requestId: string, caller: Source, eventId: string, now: string)
    requires Undecided(s.judgments)
    ensures
      var after := WithdrawStep(p, s, judgmentId, requestId, caller, eventId, now).0;
      after.relations == s.relations && NoneDecided(s.judgments, after.judgments)
  {
    hide LedgerKey, BoundTo;
    var at := FindJudgment(s.judgments, judgmentId);
    assert at >= 0 ==> s.judgments[at] in s.judgments;
  }

  lemma ProposeRewrites(p: Primitives, s: State, c: ProposeCommand, caller: Source, id: string, now: string)
    requires Undecided(s.judgments)
    ensures
      var after := ProposeStep(p, s, c, caller, id, now).0;
      after.relations == s.relations && NoneDecided(s.judgments, after.judgments)
  {
    hide LedgerKey, ProposeHash, BoundTo, ReplayedProposal, OpenAt, Undecided, NoneDecided, WithProposal, ProposalScope;
    var scope, pred := ProposalScope(s, c, caller), PredecessorCheck(p, s, c, caller);
    NothingDecided(s.judgments);
    if scope.Ok? && pred.Ok? {
      var j := NewJudgment(scope.value.0, scope.value.1, c, caller, id, now);
      WithProposalDecidesNone(s.judgments, j, pred.value, now);
    }
  }

  lemma NothingDecided(js: seq<Judgment>)
    ensures NoneDecided(js, js)
  {
  }

  lemma WithProposalDecidesNone(js: seq<Judgment>, j: Judgment, replaced: string, now: string)
    requires Undecided(js) && j.adjudicator.None?
    requires replaced != "" ==> FindJudgment(js, replaced) >= 0 && js[FindJudgment(js, replaced)].status == Proposed
    ensures NoneDecided(js, WithProposal(js, j, replaced, now))
  {
    var at := FindJudgment(js, replaced);
    assert at >= 0 ==> js[at] in js;
  }

  lemma SaveRelations(p: Primitives, s: State, op: Op)
    requires RelationsCaused(s) && EndsKnown(s) && DistinctIds(s.memories) && LegalOp(s, op) && op.Save?
    ensures RelationsCaused(Step(p, s, op))
  {
    hide RelationsCaused, EndsKnown, RowsKept, SaveState;
    StepKeepsRows(p, s, op);
    if SaveRefusal(p, s, op.input, op.now).None? {
      var m := RevisionFor(p, s, op.input, op.id, op.now);
      var after := SaveState(p, s, m);
      SaveOnlySigns(p, s, m, after);
      SaveKeepsJudgments(p, s, m, after);
      SavedRelations(p, s, m, after);
    }
  }

  lemma RowRelations(p: Primitives, s: State, op: Op)
    requires RelationsCaused(s) && LegalOp(s, op) && MemoryOp(op) && !op.Save?
    ensures RelationsCaused(Step(p, s, op))
  {
    hide RelationsCaused, RowsKept, SameRoutes, GateStep, LinkStep, ApproveStep, ReviewStep;
    var after := Step(p, s, op);
    StepKeepsRows(p, s, op);
    match op {
      case Gate(memoryId, to, actor, actorKind, now) =>
        GateKeepsRoutes(p, s, memoryId, to, actor, actorKind, now, after);
        GateKeepsJudgments(p, s, memoryId, to, actor, actorKind, now, after);
      case Link(kind, memoryId, ref, actor, now) =>
        LinkKeepsRoutes(p, s, kind, memoryId, ref, actor, now, after);
        LinkKeepsJudgments(p, s, kind, memoryId, ref, actor, now, after);
      case Approve(c, who, policy, eventId, now) =>
        ApproveKeepsRoutes(p, s, c, who, policy, eventId, now, after);
        ApproveKeepsJudgments(p, s, c, who, policy, eventId, now, after);
      case Review(c, who, d, eventId, now) =>
        ReviewKeepsRoutes(p, s, c, who, d, eventId, now, after);
        ReviewKeepsJudgments(p, s, c, who, d, eventId, now, after);
    }
    QuietStep(s, after);
  }

  /** In every run a relation is recorded exactly for the supersession of a row and for a confirmed judgment, in the
      name and at the instant of what caused it, and never twice. */
  lemma {:induction false} RunsCauseRelations(p: Primitives, ops: seq<Op>)
    requires LegalRun(p, ops)
    ensures RelationsCaused(Run(p, ops))
  {
    hide RelationsCaused, Step, LegalOp, Inv, EndsKnown, Undecided;
    if ops == [] {
      NoRelations();
    } else {
      var shorter, op := ops[..|ops| - 1], ops[|ops| - 1];
      var s := Run(p, shorter);
      RunsCauseRelations(p, shorter);
      RunKeepsInv(p, shorter);
      RunKeepsEnds(p, shorter);
      OpenAreUndecided(p, shorter);
      StepCauses(p, s, op);
    }
  }

  lemma NoRelations()
    ensures RelationsCaused(EMPTY)
  {
  }

  lemma StepCauses(p: Primitives, s: State, op: Op)
    requires RelationsCaused(s) && Inv(p, s) && LegalOp(s, op) && EndsKnown(s) && Undecided(s.judgments)
    ensures RelationsCaused(Step(p, s, op))
  {
    hide RelationsCaused, EndsKnown, Undecided, MemoryInv, GateStep, LinkStep, ApproveStep, ReviewStep, SaveStep, AdjudicateStep;
    if op.Save? {
      DistinctRows(p, s);
      SaveRelations(p, s, op);
    } else if MemoryOp(op) {
      RowRelations(p, s, op);
    } else if op.Adjudicate? {
      var Adjudicate(v, c, who, policy, eventId, supersedeEventId, now) := op;
      VerdictRelations(p, s, v, c, who, policy, eventId, supersedeEventId, now, Step(p, s, op));
    } else {
      ProposalRelations(p, s, op);
    }
  }

  lemma DistinctRows(p: Primitives, s: State)
    requires MemoryInv(p, s)
    ensures DistinctIds(s.memories)
  {
  }

  // ------------------------------------------------------------ judgment relations

  ghost predicate JudgmentGaveWay(js: seq<Judgment>, r: Relation) {
    r.relation == MemoryRelation.Supersedes && exists j | j in js :: j.id == r.fromId && j.status == Replaced && j.supersedesId == r.toId
  }

  /** A judgment relation is recorded exactly for each judgment that was replaced. */
  ghost predicate ReplacementsRecorded(s: State) {
    && (forall j | j in s.judgments && j.status == Replaced :: Recorded(s.judgmentRelations, j.id, j.supersedesId, MemoryRelation.Supersedes))
    && (forall r | r in s.judgmentRelations :: JudgmentGaveWay(s.judgments, r))
  }

  /** Replaced judgments stay as they are, and at most one is replaced in a step, together with its relation. */
  ghost predicate ReplacesOne(s: State, after: State) {
    && |s.judgments| <= |after.judgments|
    && (forall i | 0 <= i < |s.judgments| && s.judgments[i].status == Replaced :: after.judgments[i] == s.judgments[i])
    && (if after.judgmentRelations == s.judgmentRelations
        then forall i | 0 <= i < |after.judgments| && after.judgments[i].status == Replaced :: i < |s.judgments| && s.judgments[i].status == Replaced
        else exists at ::
          && 0 <= at < |s.judgments| && after.judgments[at].status == Replaced
          && |after.judgmentRelations| == |s.judgmentRelations| + 1 && after.judgmentRelations[..|s.judgmentRelations|] == s.judgmentRelations
          && (var r := after.judgmentRelations[|s.judgmentRelations|];
              r.fromId == after.judgments[at].id && r.toId == after.judgments[at].supersedesId && r.relation == MemoryRelation.Supersedes)
          && forall i | 0 <= i < |after.judgments| && i != at && after.judgments[i].status == Replaced ::
               i < |s.judgments| && s.judgments[i].status == Replaced)
  }

  lemma ReplacementsStay(s: State, after: State)
    requires ReplacementsRecorded(s) && ReplacesOne(s, after)
    ensures ReplacementsRecorded(after)
  {
    hide Recorded, JudgmentGaveWay;
    assert s.judgmentRelations <= after.judgmentRelations;
    forall j | j in after.judgments && j.status == Replaced
      ensures Recorded(after.judgmentRelations, j.id, j.supersedesId, MemoryRelation.Supersedes)
    {
      var i :| 0 <= i < |after.judgments| && after.judgments[i] == j;
      if i < |s.judgments| && s.judgments[i].status == Replaced {
        assert s.judgments[i] in s.judgments;
        RecordedStays(s.judgmentRelations, after.judgmentRelations, j.id, j.supersedesId, MemoryRelation.Supersedes);
      } else {
        LastIsRecorded(after.judgmentRelations, j);
      }
    }
    forall k | 0 <= k < |after.judgmentRelations| ensures JudgmentGaveWay(after.judgments, after.judgmentRelations[k]) {
      if k < |s.judgmentRelations| {
        assert after.judgmentRelations[k] == s.judgmentRelations[k] && s.judgmentRelations[k] in s.judgmentRelations;
        GaveWayStays(s.judgments, after.judgments, s.judgmentRelations[k]);
      } else {
        GivesWayNow(s, after);
      }
    }
  }

  lemma LastIsRecorded(relations: seq<Relation>, j: Judgment)
    requires relations != []
    requires var r := relations[|relations| - 1]; r.fromId == j.id && r.toId == j.supersedesId && r.relation == MemoryRelation.Supersedes
    ensures Recorded(relations, j.id, j.supersedesId, MemoryRelation.Supersedes)
  {
    assert relations[|relations| - 1] in relations;
  }

  lemma GaveWayStays(js: seq<Judgment>, after: seq<Judgment>, r: Relation)
    requires JudgmentGaveWay(js, r) && |js| <= |after|
    requires forall i | 0 <= i < |js| && js[i].status == Replaced :: after[i] == js[i]
    ensures JudgmentGaveWay(after, r)
  {
    var j :| j in js && j.id == r.fromId && j.status == Replaced && j.supersedesId == r.toId;
    var i :| 0 <= i < |js| && js[i] == j;
    assert after[i] in after;
  }

  lemma GivesWayNow(s: State, after: State)
    requires ReplacesOne(s, after) && |after.judgmentRelations| == |s.judgmentRelations| + 1
    ensures JudgmentGaveWay(after.judgments, after.judgmentRelations[|s.judgmentRelations|])
  {
    var at :| 0 <= at < |s.judgments| && after.judgments[at].status == Replaced &&
      (var r := after.judgmentRelations[|s.judgmentRelations|];
       r.fromId == after.judgments[at].id && r.toId == after.judgments[at].supersedesId && r.relation == MemoryRelation.Supersedes);
    assert after.judgments[at] in after.judgments;
  }

  lemma ProposeReplaces(p: Primitives, s: State, c: ProposeCommand, caller: Source, id: string, now: string)
    ensures ReplacesOne(s, ProposeStep(p, s, c, caller, id, now).0)
  {
    hide LedgerKey, ProposeHash, BoundTo, ReplayedProposal, OpenAt, ProposalScope, ReplacesOne;
    var scope, pred := ProposalScope(s, c, caller), PredecessorCheck(p, s, c, caller);
    NoneReplaced(s);
    if scope.Ok? && pred.Ok? {
      var j := NewJudgment(scope.value.0, scope.value.1, c, caller, id, now);
      ProposalReplaces(s, CommitProposal(p, s, c, caller, j, pred.value, now).0, j, pred.value, p.proposerBinding(caller), now);
    }
  }

  lemma NoneReplaced(s: State)
    ensures ReplacesOne(s, s)
  {
  }

  lemma ProposalReplaces(s: State, after: State, j: Judgment, replaced: string, actor: string, now: string)
    requires j.status == Proposed && after.judgments == WithProposal(s.judgments, j, replaced, now)
    requires replaced != "" ==> FindJudgment(s.judgments, replaced) >= 0 && s.judgments[FindJudgment(s.judgments, replaced)].status == Proposed
    requires after.judgmentRelations == if replaced == "" then s.judgmentRelations
                                        else s.judgmentRelations + [Relation(replaced, j.id, MemoryRelation.Supersedes, actor, now)]
    ensures ReplacesOne(s, after)
  {
    var at := FindJudgment(s.judgments, replaced);
    if replaced != "" {
      assert after.judgments[at].id == replaced && after.judgments[at].supersedesId == j.id;
      assert |after.judgmentRelations| != |s.judgmentRelations|;
    }
  }

  lemma WithdrawalReplaces(p: Primitives, s: State, judgmentId: string, requestId: string, caller: Source, eventId: string, now: string)
    ensures ReplacesOne(s, WithdrawStep(p, s, judgmentId, requestId, caller, eventId, now).0)
  {
    hide LedgerKey, BoundTo;
  }

  lemma VerdictReplaces(p: Primitives, s: State, v: Verdict, c: AdjudicateCommand, who: Principal, policy: JudgmentPolicy,
                        eventId: string, supersedeEventId: string, now: string)
    ensures ReplacesOne(s, AdjudicateStep(p, s, v, c, who, policy, eventId, supersedeEventId, now).0)
  {
    hide AdjudicationCheck, AdjudicateStep, CommitVerdict, ReplacesOne;
    VerdictCommitsIff(p, s, v, c, who, policy, eventId, supersedeEventId, now);
    NoneReplaced(s);
    if VerdictGuards(p, s, v, c, who, policy) {
      var (at, policyVersion, pred) := AdjudicationCheck(p, s, v, c, who, policy).value;
      CommittedReplaces(p, s, v, c, who, at, policyVersion, pred, eventId, supersedeEventId, now);
    }
  }

  lemma CommittedReplaces(p: Primitives, s: State, v: Verdict, c: AdjudicateCommand, who: Principal, at: nat,
                          policyVersion: string, pred: int, eventId: string, supersedeEventId: string, now: string)
    requires at < |s.judgments| && -1 <= pred < |s.judgments|
    requires s.judgments[at].status == Proposed && (pred >= 0 ==> s.judgments[pred].status == Confirmed)
    ensures ReplacesOne(s, CommitVerdict(p, s, v, c, who, at, policyVersion, pred, eventId, supersedeEventId, now).0)
  {
    hide AdjudicatedPayload, LedgerKey, AdjudicateHash, WithRelation, VerdictEvents;
    var after := CommitVerdict(p, s, v, c, who, at, policyVersion, pred, eventId, supersedeEventId, now).0;
    if pred >= 0 {
      assert after.judgments[pred].status == Replaced && after.judgments[pred].id == s.judgments[pred].id;
      assert |after.judgmentRelations| != |s.judgmentRelations|;
    }
  }

  lemma StepReplaces(p: Primitives, s: State, op: Op)
    ensures ReplacesOne(s, Step(p, s, op))
  {
    hide ReplacesOne, ProposeStep, WithdrawStep, AdjudicateStep, GateStep, LinkStep, ApproveStep, ReviewStep, SaveStep;
    if MemoryOp(op) {
      MemoryOpKeepsJudgments(p, s, op, Step(p, s, op));
      SameJudgmentsReplaceNone(s, Step(p, s, op));
    } else {
      match op
      case Propose(c, caller, id, now) => ProposeReplaces(p, s, c, caller, id, now);
      case Adjudicate(v, c, who, policy, eventId, supersedeEventId, now) =>
        VerdictReplaces(p, s, v, c, who, policy, eventId, supersedeEventId, now);
      case Withdraw(judgmentId, requestId, caller, eventId, now) => WithdrawalReplaces(p, s, judgmentId, requestId, caller, eventId, now);
    }
  }

  lemma SameJudgmentsReplaceNone(s: State, after: State)
    requires after.judgments == s.judgments && after.judgmentRelations == s.judgmentRelations
    ensures ReplacesOne(s, after)
  {
  }

  /** In every run a judgment relation is recorded exactly for each replaced judgment, to the one that stands for it. */
  lemma {:induction false} RunsRecordReplacements(p: Primitives, ops: seq<Op>)
    ensures ReplacementsRecorded(Run(p, ops))
  {
    hide Step, Recorded, JudgmentGaveWay, ReplacesOne;
    if ops != [] {
      var shorter := ops[..|ops| - 1];
      RunsRecordReplacements(p, shorter);
      StepReplaces(p, Run(p, shorter), ops[|ops| - 1]);
      ReplacementsStay(Run(p, shorter), Run(p, ops));
    }
  }
}
