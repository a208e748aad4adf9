/** A run that misroutes: two observations, a proposal that the first is superseded, and its confirmation. */
module StoreMisrouting {
  import opened Text
  import opened Records
  import opened StoreModel
  import opened JudgmentModel
  import opened JudgmentChains
  import opened StoreRuns
  import opened StoreRouting
  import SupersessionWalk
  import Verification

  /** A revision of a topic and scope that has none yet. */
  lemma NewChainSave(p: Primitives, s: State, m: Memory)
    requires LatestAt(p, s.memories, KeyOf(p, m)) < 0
    ensures
      var after := SaveState(p, s, m);
      && after.memories == s.memories + [m] && after.judgments == s.judgments && after.judgmentLedger == s.judgmentLedger
      && after.relations == s.relations
  {
    SaveOnlySigns(p, s, m, SaveState(p, s, m));
  }

  /** Two observations of one company in different chains. */
  lemma TwoObservations(p: Primitives, a: SaveInput, idA: string, nowA: string, b: SaveInput, idB: string, nowB: string)
      returns (m1: Memory, m2: Memory)
    requires idA != "" && idB != "" && idA != idB && p.chainKey(a.topicKey, a.scope) != p.chainKey(b.topicKey, b.scope)
    requires SaveRefusal(p, EMPTY, a, nowA).None? && SaveRefusal(p, Run(p, [Save(a, idA, nowA)]), b, nowB).None?
    ensures m1.id == idA && m1.scope == a.scope && m1.status == InitialStatus(a.fiscalEffect)
    ensures m2.id == idB && m2.scope == b.scope
    ensures
      var ops := [Save(a, idA, nowA), Save(b, idB, nowB)];
      var s := Run(p, ops);
      && LegalRun(p, ops) && s.memories == [m1, m2] && s.judgments == [] && s.judgmentLedger == map[] && s.relations == []
  {
    hide SaveState, SaveRefusal, Envelope;
    var ops := [Save(a, idA, nowA), Save(b, idB, nowB)];
    assert ops[..1] == [Save(a, idA, nowA)] && ops[..1][..0] == [];
    m1 := RevisionFor(p, EMPTY, a, idA, nowA);
    NewChainSave(p, EMPTY, m1);
    var s1 := Run(p, ops[..1]);
    assert s1 == SaveState(p, EMPTY, m1);
    m2 := RevisionFor(p, s1, b, idB, nowB);
    assert [m1][..0] == [];
    assert LatestAt(p, [m1], KeyOf(p, m2)) < 0;
    NewChainSave(p, s1, m2);
    assert Run(p, ops) == SaveState(p, s1, m2);
    assert [m1] + [m2] == [m1, m2];
    assert LegalRun(p, ops[..1]);
  }

  /** The proposal that the first observation is superseded by the second. */
  lemma SupersedesProposed(p: Primitives, s: State, m1: Memory, m2: Memory, c: ProposeCommand, caller: Source, id: string,
                           now: string) returns (j: Judgment)
    requires s.memories == [m1, m2] && m1.id != m2.id && s.judgments == [] && s.judgmentLedger == map[]
    requires m1.scope.Company? && m2.scope.Company?
    requires m1.scope.organizationId == m2.scope.organizationId && m1.scope.companyId == m2.scope.companyId
    requires c.fromId == m1.id && c.toId == m2.id && c.relation == Supersedes && c.predecessorId == ""
    requires !IncompleteProposal(c) && CanPropose(caller) && id != ""
    ensures j.id == id && j.fromId == m1.id && j.relation == Supersedes && j.status == Proposed && j.predecessorId == ""
    ensures j.tenantId == m1.scope.organizationId
    ensures
      var after := ProposeStep(p, s, c, caller, id, now).0;
      && after == s.(judgments := [j],
                     judgmentLedger := map[LedgerKey(j.tenantId, c.requestId) :=
                       JudgmentReservation(ProposeHash(p, c), p.proposerBinding(caller), id, None, true)])
  {
    hide LedgerKey, ProposeHash;
    assert s.memories[..1] == [m1];
    assert FindMemory(s.memories, m1.id) == 0 && FindMemory(s.memories, m2.id) == 1;
    var scope := ProposalScope(s, c, caller);
    j := NewJudgment(scope.value.0, scope.value.1, c, caller, id, now);
    assert [] + [j] == [j];
  }

  /** The run up to the proposal. */
  function ProposedRun(a: SaveInput, idA: string, nowA: string, b: SaveInput, idB: string, nowB: string,
                       c: ProposeCommand, caller: Source, id: string, now: string): seq<Op>
  {
    [Save(a, idA, nowA), Save(b, idB, nowB), Propose(c, caller, id, now)]
  }

  /** The store after the proposal. */
  ghost predicate OneProposal(s: State, m1: Memory, m2: Memory, j: Judgment, key: string) {
    && s.memories == [m1, m2] && s.judgments == [j] && s.judgmentLedger.Keys == {key}
    && j.fromId == m1.id && j.relation == Supersedes && j.status == Proposed && j.predecessorId == ""
    && m1.status != Superseded && m1.id != m2.id
  }

  lemma ProposalIsReached(p: Primitives, a: SaveInput, idA: string, nowA: string, b: SaveInput, idB: string, nowB: string,
                          c: ProposeCommand, caller: Source, id: string, now: string)
      returns (m1: Memory, m2: Memory, j: Judgment)
    requires idA != "" && idB != "" && idA != idB && p.chainKey(a.topicKey, a.scope) != p.chainKey(b.topicKey, b.scope)
    requires SaveRefusal(p, EMPTY, a, nowA).None? && SaveRefusal(p, Run(p, [Save(a, idA, nowA)]), b, nowB).None?
    requires a.scope.Company? && b.scope.Company?
    requires a.scope.organizationId == b.scope.organizationId && a.scope.companyId == b.scope.companyId
    requires c.fromId == idA && c.toId == idB && c.relation == Supersedes && c.predecessorId == ""
    requires !IncompleteProposal(c) && CanPropose(caller) && id != ""
    ensures j.id == id && m1.id == idA
    ensures
      var ops := ProposedRun(a, idA, nowA, b, idB, nowB, c, caller, id, now);
      LegalRun(p, ops) && OneProposal(Run(p, ops), m1, m2, j, LedgerKey(a.scope.organizationId, c.requestId))
  {
    hide ProposeStep, LedgerKey, SaveRefusal, IncompleteProposal, FindMemory, Run, LegalRun;
    var two := [Save(a, idA, nowA), Save(b, idB, nowB)];
    m1, m2 := TwoObservations(p, a, idA, nowA, b, idB, nowB);
    var before := Run(p, two);
    j := SupersedesProposed(p, before, m1, m2, c, caller, id, now);
    RunSnoc(p, two, Propose(c, caller, id, now));
    assert two + [Propose(c, caller, id, now)] == ProposedRun(a, idA, nowA, b, idB, nowB, c, caller, id, now);
  }

  /** Confirming that proposal misroutes. */
  lemma ConfirmingMisroutes(p: Primitives, s: State, m1: Memory, m2: Memory, j: Judgment, key: string, v: AdjudicateCommand,
                            who: Principal, policy: JudgmentPolicy, eventId: string, supersedeEventId: string, later: string)
    requires OneProposal(s, m1, m2, j, key) && v.judgmentId == j.id && LedgerKey(who.tenantId, v.requestId) != key
    requires !Blank(v.resolution) && !Blank(v.judgmentId) && !Blank(v.expectedJudgmentHash) && !Blank(v.requestId)
    requires p.normalize(v.expectedJudgmentHash) == p.lower(p.judgmentHash(j)) && policy(who, j).allowed
    ensures Misroutes(p, s, Adjudicate(Confirm, v, who, policy, eventId, supersedeEventId, later))
  {
    hide LedgerKey, Blank;
    assert s.judgments[0] == j && FindJudgment(s.judgments, j.id) == 0;
    assert s.memories[..1] == [m1];
    assert FindMemory(s.memories, m1.id) == 0;
    assert LedgerKey(who.tenantId, v.requestId) !in s.judgmentLedger;
  }

  /** Runs without an adjudication do not misroute. */
  lemma {:induction false} NoVerdictNoMisrouting(p: Primitives, ops: seq<Op>)
    requires forall k | 0 <= k < |ops| :: !ops[k].Adjudicate?
    ensures RoutedRun(p, ops)
  {
    if ops != [] {
      NoVerdictNoMisrouting(p, ops[..|ops| - 1]);
    }
  }

  /** Misrouting is reachable: confirming the proposal is a legal step past all guards, and afterwards the walk
      from the first observation fails. The policy and the reviewed hash are the caller's to supply. */
  lemma MisroutingIsReachable(p: Primitives, a: SaveInput, idA: string, nowA: string, b: SaveInput, idB: string, nowB: string,
                              c: ProposeCommand, caller: Source, id: string, now: string,
                              v: AdjudicateCommand, who: Principal, policy: JudgmentPolicy, eventId: string,
                              supersedeEventId: string, later: string, scope: SubjectScope)
      returns (at: nat)
    requires idA != "" && idB != "" && idA != idB && p.chainKey(a.topicKey, a.scope) != p.chainKey(b.topicKey, b.scope)
    requires SaveRefusal(p, EMPTY, a, nowA).None? && SaveRefusal(p, Run(p, [Save(a, idA, nowA)]), b, nowB).None?
    requires a.scope.Company? && b.scope.Company?
    requires a.scope.organizationId == b.scope.organizationId && a.scope.companyId == b.scope.companyId
    requires c.fromId == idA && c.toId == idB && c.relation == Supersedes && c.predecessorId == ""
    requires !IncompleteProposal(c) && CanPropose(caller) && id != ""
    requires !Blank(v.resolution) && !Blank(v.judgmentId) && !Blank(v.expectedJudgmentHash) && !Blank(v.requestId)
    requires v.judgmentId == id && LedgerKey(who.tenantId, v.requestId) != LedgerKey(a.scope.organizationId, c.requestId)
    requires
      var s := Run(p, ProposedRun(a, idA, nowA, b, idB, nowB, c, caller, id, now));
      s.judgments != [] ==>
        p.normalize(v.expectedJudgmentHash) == p.lower(p.judgmentHash(s.judgments[0])) && policy(who, s.judgments[0]).allowed
    ensures
      var ops := ProposedRun(a, idA, nowA, b, idB, nowB, c, caller, id, now);
      var op := Adjudicate(Confirm, v, who, policy, eventId, supersedeEventId, later);
      var after := Step(p, Run(p, ops), op);
      && LegalRun(p, ops) && LegalOp(Run(p, ops), op) && Misroutes(p, Run(p, ops), op) && at < |after.memories|
      && !Verification.CleanWalk(SupersessionWalk.Walk(after.memories, after.relations, at, {}), scope)
  {
    hide Run, LegalRun, RoutedRun, Misroutes, LedgerKey, SaveRefusal, IncompleteProposal, Step, SupersessionWalk.Walk, FindMemory;
    var ops := ProposedRun(a, idA, nowA, b, idB, nowB, c, caller, id, now);
    var op := Adjudicate(Confirm, v, who, policy, eventId, supersedeEventId, later);
    var m1, m2, j := ProposalIsReached(p, a, idA, nowA, b, idB, nowB, c, caller, id, now);
    var s := Run(p, ops);
    assert s.judgments[0] == j;
    ConfirmingMisroutes(p, s, m1, m2, j, LedgerKey(a.scope.organizationId, c.requestId), v, who, policy, eventId, supersedeEventId, later);
    RunKeepsInv(p, ops);
    RunKeepsEnds(p, ops);
    NoVerdictNoMisrouting(p, ops);
    RoutedRunsStayRouted(p, ops);
    at := MisroutingFailsTheWalk(p, s, op, Step(p, s, op), scope);
  }
}
