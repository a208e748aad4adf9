/** What every operation leaves of the stored rows: everything but the status, the successor and the references,
    which only grow by new ones. */
module StoreRows {
  import opened Text
  import opened Records
  import opened Lists
  import opened RuleLinks
  import opened StoreModel
  import opened JudgmentModel
  import opened RevisionChains
  import opened StoreInvariants
  import opened StoreSteps
  import opened StoreRuns
  import PeriodComparison

  /** The references stay, or one new one that is not blank is appended. */
  ghost predicate RefsGrow(refs: seq<string>, after: seq<string>) {
    after == refs || exists r :: !Blank(r) && r !in refs && after == refs + [r]
  }

  /** The moves of a row's status: a pending row is decided once, and a row that is current is voided or superseded. */
  predicate StatusMoves(from: Status, to: Status) {
    || to == from
    || (from == PendingReview && (to == Approved || to == Rejected || to == Returned))
    || ((from == Active || from == PendingReview || from == Approved) && (to == Voided || to == Superseded))
  }

  /** A row keeps what it was saved with; only its status, successor, references and cached hash may change. */
  ghost predicate RowKept(a: Memory, b: Memory) {
    && b == a.(status := b.status, supersedesId := b.supersedesId, envelopeHash := b.envelopeHash,
               evidenceRefs := b.evidenceRefs, ruleRefs := b.ruleRefs)
    && StatusMoves(a.status, b.status)
    && (b.supersedesId == a.supersedesId || (a.status != Superseded && b.status == Superseded))
    && RefsGrow(a.evidenceRefs, b.evidenceRefs) && RefsGrow(a.ruleRefs, b.ruleRefs)
  }

  /** Rows are kept in place, and appended ones are new. */
  ghost predicate RowsKept(ms: seq<Memory>, after: seq<Memory>) {
    && |ms| <= |after|
    && (forall i | 0 <= i < |ms| :: RowKept(ms[i], after[i]))
    && (forall i | |ms| <= i < |after| :: FindMemory(ms, after[i].id) < 0)
  }

  lemma SavedRowsAreKept(p: Primitives, ms: seq<Memory>, m: Memory, saved: seq<Memory>)
    requires FindMemory(ms, m.id) < 0 && saved == Saved(p, ms, m)
    ensures RowsKept(ms, saved)
  {
    var at := LatestAt(p, ms, KeyOf(p, m));
    var mid := if at >= 0 && CanVoid(ms[at].status) then ms[at := Replacing(ms[at], m)] else ms;
    assert saved == mid + [m];
    forall i | 0 <= i < |ms| ensures RowKept(ms[i], saved[i]) {
      RowKeepsItself(ms[i]);
    }
  }

  lemma SameRowsAreKept(ms: seq<Memory>, after: seq<Memory>)
    requires after == ms
    ensures RowsKept(ms, after)
  {
  }

  lemma StepKeepsRows(p: Primitives, s: State, op: Op)
    requires LegalOp(s, op)
    ensures RowsKept(s.memories, Step(p, s, op).memories)
    ensures
      var after := Step(p, s, op).memories;
      |after| == |s.memories| ||
      (op.Save? && |after| == |s.memories| + 1 && after[|s.memories|] == RevisionFor(p, s, op.input, op.id, op.now))
  {
    hide RowsKept, RowKept, ProposeStep, AdjudicateStep, WithdrawStep, Emit;
    var after := Step(p, s, op);
    match op
    case Save(input, id, now) =>
      if SaveRefusal(p, s, input, now).None? {
        var m := RevisionFor(p, s, input, id, now);
        SaveOnlySigns(p, s, m, after);
        SavedRowsAreKept(p, s.memories, m, after.memories);
      } else {
        SameRowsAreKept(s.memories, after.memories);
      }
    case Gate(memoryId, to, actor, actorKind, now) => GateRewritesRow(p, s, memoryId, to, actor, actorKind, now, after);
    case Link(kind, memoryId, ref, actor, now) => LinkRewritesRow(p, s, kind, memoryId, ref, actor, now, after);
    case Approve(c, who, policy, eventId, now) => ApproveRewritesRow(p, s, c, who, policy, eventId, now, after);
    case Review(c, who, d, eventId, now) => ReviewRewritesRow(p, s, c, who, d, eventId, now, after);
    case Propose(c, caller, id, now) =>
      ProposeIsJudgmentSide(p, s, c, caller, id, now, after);
      SameRowsAreKept(s.memories, after.memories);
    case Adjudicate(v, c, who, policy, eventId, supersedeEventId, now) =>
      VerdictKeepsRows(p, s, v, c, who, policy, eventId, supersedeEventId, now);
      SameRowsAreKept(s.memories, after.memories);
    case Withdraw(judgmentId, requestId, caller, eventId, now) =>
      WithdrawIsJudgmentSide(p, s, judgmentId, requestId, caller, eventId, now, after);
      SameRowsAreKept(s.memories, after.memories);
  }

  lemma VerdictKeepsRows(p: Primitives, s: State, v: Verdict, c: AdjudicateCommand, who: Principal, policy: JudgmentPolicy,
                         eventId: string, supersedeEventId: string, now: string)
    ensures AdjudicateStep(p, s, v, c, who, policy, eventId, supersedeEventId, now).0.memories == s.memories
  {
    hide AdjudicationCheck, AdjudicateStep, AdjudicatedPayload;
    VerdictCommitsIff(p, s, v, c, who, policy, eventId, supersedeEventId, now);
  }

  lemma RewrittenRow(ms: seq<Memory>, at: nat, m: Memory)
    requires at < |ms| && RowKept(ms[at], m)
    ensures RowsKept(ms, ms[at := m])
  {
    hide RefsGrow;
    forall i | 0 <= i < |ms| ensures RowKept(ms[i], ms[at := m][i]) {
      RowKeepsItself(ms[i]);
    }
  }

  lemma StatusKeepsRow(p: Primitives, m: Memory, to: Status)
    requires StatusMoves(m.status, to)
    ensures RowKept(m, WithStatus(p, m, to))
  {
  }

  lemma LinkKeepsRow(p: Primitives, m: Memory, kind: LinkKind, ref: string)
    requires !Blank(ref) && ref !in RefsOf(m, kind)
    ensures RowKept(m, Linked(p, m, kind, ref))
  {
    hide Blank;
  }

  lemma RowKeepsItself(m: Memory)
    ensures RowKept(m, m)
  {
  }

  lemma GateRewritesRow(p: Primitives, s: State, memoryId: string, to: Status, actor: string, actorKind: ActorKind,
                        now: string, after: State)
    requires GateTarget(to) && after == GateStep(p, s, memoryId, to, actor, actorKind, now).0
    ensures RowsKept(s.memories, after.memories) && |after.memories| == |s.memories|
  {
    hide RowsKept, RowKept, Emit, Envelope;
    var at := FindMemory(s.memories, memoryId);
    if at >= 0 && GateAllows(s.memories[at].status, to, actorKind) {
      var before := s.memories[at];
      var moved := LoggedMove(p, s, at, to, actor, actorKind, now);
      EmitOnlySigns(p, moved, TransitionPayload(p, before, WithStatus(p, before, to), actor, now));
      StatusKeepsRow(p, before, to);
      RewrittenRow(s.memories, at, WithStatus(p, before, to));
    } else {
      SameRowsAreKept(s.memories, after.memories);
    }
  }

  lemma LinkRewritesRow(p: Primitives, s: State, kind: LinkKind, memoryId: string, ref: string, actor: string,
                        now: string, after: State)
    requires after == LinkStep(p, s, kind, memoryId, ref, actor, now).0
    ensures RowsKept(s.memories, after.memories) && |after.memories| == |s.memories|
  {
    hide RowsKept, RowKept, Emit, Envelope;
    var at := FindMemory(s.memories, memoryId);
    if !Blank(ref) && at >= 0 && ref !in RefsOf(s.memories[at], kind) {
      var before := s.memories[at];
      var m := Linked(p, before, kind, ref);
      var s1 := s.(memories := s.memories[at := m]);
      EmitOnlySigns(p, s1, LinkedPayload(p, before, m, ref, actor, now));
      LinkKeepsRow(p, before, kind, ref);
      RewrittenRow(s.memories, at, m);
    } else {
      SameRowsAreKept(s.memories, after.memories);
    }
  }

  lemma DecideRewritesRow(p: Primitives, s: State, at: nat, to: Status, c: ApproveCommand, who: Principal,
                          policyVersion: string, now: string)
    requires at < |s.memories| && s.memories[at].status == PendingReview
    requires to == Approved || to == Rejected || to == Returned
    ensures RowsKept(s.memories, Decide(p, s, at, to, c, who, policyVersion, now).memories)
    ensures |Decide(p, s, at, to, c, who, policyVersion, now).memories| == |s.memories|
  {
    hide RowsKept, RowKept, Emit, Envelope;
    var before := s.memories[at];
    EmitOnlySigns(p, LoggedMove(p, s, at, to, who.subjectId, Human, now),
                  DecidedPayload(p, c, who, before, WithStatus(p, before, to), policyVersion, now));
    StatusKeepsRow(p, before, to);
    RewrittenRow(s.memories, at, WithStatus(p, before, to));
  }

  lemma ApproveRewritesRow(p: Primitives, s: State, c: ApproveCommand, who: Principal, policy: ApprovalPolicy,
                           eventId: string, now: string, after: State)
    requires after == ApproveStep(p, s, c, who, policy, eventId, now).0
    ensures RowsKept(s.memories, after.memories) && |after.memories| == |s.memories|
  {
    hide RowsKept, RowKept, ApprovalCheck, Decide, LedgerKey;
    var check := ApprovalCheck(p, s, c, who, policy);
    if after != s && check.Ok? {
      DecideRewritesRow(p, s, check.value.0, Approved, c, who, check.value.1, now);
    } else {
      SameRowsAreKept(s.memories, after.memories);
    }
  }

  lemma ReviewRewritesRow(p: Primitives, s: State, c: ApproveCommand, who: Principal, d: Decision,
                          eventId: string, now: string, after: State)
    requires after == ReviewStep(p, s, c, who, d, eventId, now).0
    ensures RowsKept(s.memories, after.memories) && |after.memories| == |s.memories|
  {
    hide RowsKept, RowKept, ReviewCheck, Decide, LedgerKey;
    var check := ReviewCheck(p, s, c, who, d);
    if after != s && check.Ok? {
      DecideRewritesRow(p, s, check.value, StatusOf(d), c, who, KERNEL_POLICY_VERSION, now);
    } else {
      SameRowsAreKept(s.memories, after.memories);
    }
  }

  // ----------------------------------------------------------------- references

  lemma GrowthKeepsDistinct(refs: seq<string>, after: seq<string>)
    requires RefsGrow(refs, after)
    ensures Distinct(after) <==> Distinct(refs)
    ensures (forall r | r in refs :: !Blank(r)) ==> forall r | r in after :: !Blank(r)
  {
    if Distinct(after) {
      assert forall i | 0 <= i < |refs| :: after[i] == refs[i];
    }
  }

  /** The save that row i of a run comes from. */
  ghost predicate SavedBy(p: Primitives, ops: seq<Op>, i: nat, k: nat)
    requires i < |Run(p, ops).memories|
  {
    var m := Run(p, ops).memories[i];
    k < |ops| && ops[k].Save? && ops[k].id == m.id &&
    (Distinct(m.ruleRefs) <==> Distinct(RuleRefsOf(p, ops[k].input)))
  }

  /** In every reachable store the evidence references of a row repeat none and are never blank, and its rule
      references repeat none exactly when those it was saved with repeat none. */
  lemma {:induction false} RefsOfRows(p: Primitives, ops: seq<Op>, i: nat) returns (k: nat)
    requires LegalRun(p, ops) && i < |Run(p, ops).memories|
    ensures
      var m := Run(p, ops).memories[i];
      Distinct(m.evidenceRefs) && (forall r | r in m.evidenceRefs :: !Blank(r)) && SavedBy(p, ops, i, k)
  {
    hide Distinct, Blank, RefsGrow, RuleRefsOf;
    var shorter, op := ops[..|ops| - 1], ops[|ops| - 1];
    var s := Run(p, shorter);
    StepKeepsRows(p, s, op);
    if i < |s.memories| {
      k := RefsOfRows(p, shorter, i);
      var a, b := s.memories[i], Run(p, ops).memories[i];
      assert RowKept(a, b);
      GrowthKeepsDistinct(a.evidenceRefs, b.evidenceRefs);
      GrowthKeepsDistinct(a.ruleRefs, b.ruleRefs);
    } else {
      k := |ops| - 1;
      NoRefs();
    }
  }

  lemma NoRefs()
    ensures
      var none: seq<string> := [];
      Distinct(none) && forall r | r in none :: !Blank(r)
  {
  }

  /** On stored rows, comparing evidence references as multisets compares them as sets. */
  lemma EvidenceComparesAsSets(p: Primitives, ops: seq<Op>, i: nat, later: seq<Op>, j: nat)
    requires LegalRun(p, ops) && i < |Run(p, ops).memories| && LegalRun(p, later) && j < |Run(p, later).memories|
    ensures
      var a, b := Run(p, ops).memories[i].evidenceRefs, Run(p, later).memories[j].evidenceRefs;
      multiset(a) == multiset(b) <==> forall x :: x in a <==> x in b
  {
    hide Run, LegalRun;
    var k := RefsOfRows(p, ops, i);
    var l := RefsOfRows(p, later, j);
    PeriodComparison.SetEqualityIff(Run(p, ops).memories[i].evidenceRefs, Run(p, later).memories[j].evidenceRefs);
  }

  /** When the rule references of a save repeat none: with links, or when it names none twice. */
  lemma SavedRuleRefsIff(p: Primitives, s: State, input: SaveInput, now: string)
    requires SaveRefusal(p, s, input, now).None?
    ensures Distinct(RuleRefsOf(p, input)) <==>
            input.ruleRefs.None? || input.ruleLinks != [] || Distinct(input.ruleRefs.value)
    ensures input.ruleLinks != [] ==>
            ((forall l | l in input.ruleLinks :: l.ref in RuleRefsOf(p, input)) <==> input.ruleRefs.Some?)
  {
    hide Blank, FirstTargetRefusal;
    var pins := PinsOf(p.parses, input.ruleLinks);
    PinnedLinks(p.parses, input.ruleLinks);
    if input.ruleRefs.Some? {
      DerivedAreDistinctIff(input.ruleRefs.value, pins.links);
    }
    if input.ruleLinks != [] {
      assert input.ruleLinks[0] in pins.links;
      forall l | l in input.ruleLinks ensures l.ref in LinkRefs(pins.links) {
        var i :| 0 <= i < |pins.links| && pins.links[i] == l;
        assert LinkRefs(pins.links)[i] == l.ref;
      }
    } else {
      assert pins.links == [];
    }
  }

  /** A repeated rule reference does reach the store: without links a save stores the list as it came. */
  lemma RepeatedRuleRefsAreStored(p: Primitives, input: SaveInput, id: string, now: string)
    requires id != "" && SaveRefusal(p, EMPTY, input, now).None?
    requires input.ruleLinks == [] && input.ruleRefs.Some? && !Distinct(input.ruleRefs.value)
    ensures
      var ops := [Save(input, id, now)];
      LegalRun(p, ops) && |Run(p, ops).memories| == 1 && !Distinct(Run(p, ops).memories[0].ruleRefs)
  {
    hide SaveRefusal, Distinct, Envelope;
    var ops := [Save(input, id, now)];
    assert ops[..0] == [];
    var m := RevisionFor(p, EMPTY, input, id, now);
    assert LatestAt(p, [], KeyOf(p, m)) == -1;
    SaveOnlySigns(p, EMPTY, m, SaveState(p, EMPTY, m));
    assert PinsOf(p.parses, []) == Pinned([]);
  }
}
