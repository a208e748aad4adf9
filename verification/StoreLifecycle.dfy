/** The life of a stored row along a run: what it was saved with, what it may become, and what the fiscal effect and
    the decisions made of it. */
module StoreLifecycle {
  import opened Text
  import opened Records
  import opened RuleLinks
  import opened StoreModel
  import opened RevisionChains
  import opened StatusLog
  import opened StoreInvariants
  import opened StoreSteps
  import opened StoreRuns
  import opened StoreRows
  import opened StoreJournal
  import opened StoreDecisions

  // ------------------------------------------------------------------------ rows

  /** What a row may become: what it was saved with stays, its references are only added to, and its status moves
      along the lifecycle. */
  predicate Becomes(a: Memory, b: Memory) {
    && b == a.(status := b.status, supersedesId := b.supersedesId, envelopeHash := b.envelopeHash,
               evidenceRefs := b.evidenceRefs, ruleRefs := b.ruleRefs)
    && StatusMoves(a.status, b.status)
    && a.evidenceRefs <= b.evidenceRefs && a.ruleRefs <= b.ruleRefs
  }

  lemma BecomesComposes(a: Memory, b: Memory, c: Memory)
    requires Becomes(a, b) && RowKept(b, c)
    ensures Becomes(a, c)
  {
  }

  /** Between any two points of a run every row stays where it is and becomes what it may. */
  lemma {:induction false} RowsMoveForward(p: Primitives, ops: seq<Op>, n: nat)
    requires LegalRun(p, ops) && n <= |ops|
    ensures
      var ms, later := Run(p, ops[..n]).memories, Run(p, ops).memories;
      |ms| <= |later| && forall i | 0 <= i < |ms| :: Becomes(ms[i], later[i])
    decreases |ops|
  {
    hide Becomes, RowKept, Step, LegalOp;
    if n < |ops| {
      var shorter := ops[..|ops| - 1];
      assert shorter[..n] == ops[..n];
      RowsMoveForward(p, shorter, n);
      StepKeepsRows(p, Run(p, shorter), ops[|ops| - 1]);
      var ms, mid, later := Run(p, ops[..n]).memories, Run(p, shorter).memories, Run(p, ops).memories;
      forall i | 0 <= i < |ms| ensures Becomes(ms[i], later[i]) {
        BecomesComposes(ms[i], mid[i], later[i]);
      }
    } else {
      assert ops[..n] == ops;
      forall m ensures Becomes(m, m) {
        ItselfBecomes(m);
      }
    }
  }

  lemma ItselfBecomes(m: Memory)
    ensures Becomes(m, m)
  {
  }

  /** The row that a point of a run holds under an id is the one that any later point finds, as far as it moved. */
  lemma RowIsFoundLater(p: Primitives, ops: seq<Op>, n: nat, m: Memory)
    requires LegalRun(p, ops) && n <= |ops| && m in Run(p, ops[..n]).memories
    ensures
      var at := FindMemory(Run(p, ops).memories, m.id);
      at >= 0 && Becomes(m, Run(p, ops).memories[at])
  {
    hide Run, LegalRun;
    RowsMoveForward(p, ops, n);
    RowsAreDistinct(p, ops);
    var ms := Run(p, ops[..n]).memories;
    var i :| 0 <= i < |ms| && ms[i] == m;
    FindMemoryAt(Run(p, ops).memories, i);
  }

  lemma RowsAreDistinct(p: Primitives, ops: seq<Op>)
    requires LegalRun(p, ops)
    ensures DistinctIds(Run(p, ops).memories)
  {
    RunKeepsInv(p, ops);
  }

  // ----------------------------------------------------------------------- saves

  /** The link's target is stored: a rule of its topic and tenant; the link takes effect with the row. */
  predicate HitsTarget(ms: seq<Memory>, l: PinnedRule, effectiveAt: string, tenant: string) {
    l.effectiveAt == effectiveAt &&
    exists m | m in ms ::
      && m.id == l.version && m.kind == "rule" && m.topicKey == l.ref
      && (match m.scope case Institutional => tenant == "" case Company(organization, _, _, _) => organization == tenant)
  }

  lemma {:induction false} TargetsIff(ms: seq<Memory>, links: seq<PinnedRule>, effectiveAt: string, tenant: string)
    requires DistinctIds(ms)
    ensures FirstTargetRefusal(ms, links, effectiveAt, tenant).None? <==>
            forall l | l in links :: HitsTarget(ms, l, effectiveAt, tenant)
  {
    if links != [] {
      TargetsIff(ms, links[1..], effectiveAt, tenant);
      TargetIff(ms, links[0], effectiveAt, tenant);
      assert links == [links[0]] + links[1..];
    }
  }

  lemma TargetIff(ms: seq<Memory>, l: PinnedRule, effectiveAt: string, tenant: string)
    requires DistinctIds(ms)
    ensures TargetRefusal(ms, l, effectiveAt, tenant).None? <==> HitsTarget(ms, l, effectiveAt, tenant)
  {
    if m :| m in ms && m.id == l.version {
      FoundById(ms, m);
      forall n | n in ms && n.id == l.version ensures n == m {
        FoundById(ms, n);
      }
    }
    var at := FindMemory(ms, l.version);
    assert at >= 0 ==> ms[at] in ms;
  }

  /** What a save asks of its input, in the store it finds. */
  predicate Savable(p: Primitives, ms: seq<Memory>, input: SaveInput, now: string) {
    var effectiveAt := match input.effectiveAt case None => now case Some(t) => t;
    var tenant := match input.scope case Institutional => "" case Company(organization, _, _, _) => organization;
    && !Blank(input.topicKey) && !Blank(input.title) && input.fieldsValid && input.rowValid
    && (forall l | l in input.ruleLinks :: !Blank(l.ref) && !Blank(l.version) && p.parses(l.effectiveAt))
    && (forall l, k | l in input.ruleLinks && k in input.ruleLinks && l.ref == k.ref :: l == k)
    && (forall l | l in input.ruleLinks :: HitsTarget(ms, l, effectiveAt, tenant))
  }

  lemma SavesIff(p: Primitives, s: State, input: SaveInput, now: string)
    requires DistinctIds(s.memories)
    ensures SaveRefusal(p, s, input, now).None? <==> Savable(p, s.memories, input, now)
  {
    hide Blank, HitsTarget, FirstTargetRefusal, PinsOf;
    PinnedIff(p.parses, input.ruleLinks);
    var pins := PinsOf(p.parses, input.ruleLinks);
    if pins.Pinned? {
      PinnedLinks(p.parses, input.ruleLinks);
      TargetsIff(s.memories, pins.links, EffectiveAt(input, now), TenantOf(input.scope));
    }
  }

  /** The row carries what the input said; informative rows are active and all others wait for a human. */
  ghost predicate SavedFrom(p: Primitives, m: Memory, input: SaveInput, id: string, now: string) {
    && m.id == id && m.topicKey == input.topicKey && m.title == input.title && m.kind == input.kind
    && m.scope == input.scope && m.content == input.content && m.fiscalEffect == input.fiscalEffect
    && m.recordedAt == now && m.observedAt == input.observedAt && m.source == input.source
    && m.effectiveAt == (match input.effectiveAt case None => now case Some(t) => t)
    && m.materialityLevel == input.materialityLevel && m.receiptId == input.receiptId
    && m.contentHash == p.contentHash(input, m.effectiveAt)
  }

  ghost predicate Fresh(m: Memory) {
    && m.status == (if m.fiscalEffect == NoEffect then Active else PendingReview)
    && m.supersedesId == "" && m.evidenceRefs == []
  }

  /** A save of a reachable store stores a row exactly when its input is savable; the row is the next one, carries the
      input and is fresh. */
  lemma SaveStoresIff(p: Primitives, s: State, input: SaveInput, id: string, now: string)
    requires Inv(p, s) && id != "" && FindMemory(s.memories, id) < 0
    ensures
      var after := SaveStep(p, s, input, id, now).0;
      && (|after.memories| == |s.memories| + 1 <==> Savable(p, s.memories, input, now))
      && (after == s <==> !Savable(p, s.memories, input, now))
      && (Savable(p, s.memories, input, now) ==>
            SavedFrom(p, after.memories[|s.memories|], input, id, now) && Fresh(after.memories[|s.memories|]))
  {
    hide Savable, SaveRefusal, Inv, SavedFrom, Fresh, RevisionFor, SaveState;
    StoreDecisions.DecidableStore(p, s, "");
    SavesIff(p, s, input, now);
    RevisionIsFresh(p, s, input, id, now);
    if SaveRefusal(p, s, input, now).None? {
      var m := RevisionFor(p, s, input, id, now);
      var d := SaveWrites(p, s, m, SaveState(p, s, m));
    }
  }

  lemma RevisionIsFresh(p: Primitives, s: State, input: SaveInput, id: string, now: string)
    ensures SavedFrom(p, RevisionFor(p, s, input, id, now), input, id, now) && Fresh(RevisionFor(p, s, input, id, now))
  {
    hide Envelope, RuleRefsOf;
  }

  /** Why a link is refused, in a store: it is malformed, pins its reference a second way, takes effect at another time
      than the row, or misses its target in one of four ways. */
  ghost predicate LinkExplains(p: Primitives, ms: seq<Memory>, input: SaveInput, now: string, e: LinkError, l: PinnedRule) {
    match e
    case InvalidRuleLink => Blank(l.ref) || Blank(l.version) || !p.parses(l.effectiveAt)
    case VersionConflict => exists k | k in input.ruleLinks :: k.ref == l.ref && k != l
    case EffectiveAtMismatch => l.effectiveAt != (match input.effectiveAt case None => now case Some(t) => t)
    case TargetNotFound => forall m | m in ms :: m.id != l.version
    case TargetNotARule => exists m | m in ms :: m.id == l.version && m.kind != "rule"
    case TargetTopicMismatch => exists m | m in ms :: m.id == l.version && m.kind == "rule" && m.topicKey != l.ref
    case TargetTenantMismatch =>
      exists m | m in ms ::
        m.id == l.version && m.kind == "rule" && m.topicKey == l.ref &&
        (if m.scope.Company? then m.scope.organizationId else "") !=
        (if input.scope.Company? then input.scope.organizationId else "")
  }

  lemma {:induction false} PinRefusals(parses: string -> bool, links: seq<PinnedRule>)
    ensures PinsOf(parses, links) == Refused(InvalidRuleLink) ==> exists l | l in links :: !ValidLink(parses, l)
    ensures PinsOf(parses, links) == Refused(VersionConflict) ==> exists l, k | l in links && k in links :: k.ref == l.ref && k != l
    ensures PinsOf(parses, links).Refused? ==> PinsOf(parses, links).error in {InvalidRuleLink, VersionConflict}
  {
    hide ValidLink;
    if links != [] {
      var front, l := links[..|links| - 1], links[|links| - 1];
      PinRefusals(parses, front);
      assert links == front + [l];
      if PinsOf(parses, front).Pinned? && PinsOf(parses, links) == Refused(VersionConflict) {
        PinnedLinks(parses, front);
        var earlier := PinsOf(parses, front).links;
        var i :| 0 <= i < |earlier| && LinkRefs(earlier)[i] == l.ref;
        assert earlier[i] in front && earlier[i] in links;
      }
    }
  }

  lemma {:induction false} TargetRefusals(p: Primitives, ms: seq<Memory>, input: SaveInput, now: string, links: seq<PinnedRule>)
    requires DistinctIds(ms)
    ensures
      var refusal := FirstTargetRefusal(ms, links, EffectiveAt(input, now), TenantOf(input.scope));
      refusal.Some? ==> exists l | l in links :: LinkExplains(p, ms, input, now, refusal.value, l)
  {
    hide Blank;
    if links != [] {
      var refusal := TargetRefusal(ms, links[0], EffectiveAt(input, now), TenantOf(input.scope));
      if refusal.Some? {
        var at := FindMemory(ms, links[0].version);
        assert at >= 0 ==> ms[at] in ms;
        assert LinkExplains(p, ms, input, now, refusal.value, links[0]);
      } else {
        TargetRefusals(p, ms, input, now, links[1..]);
        assert links == [links[0]] + links[1..];
      }
    }
  }

  /** A refused save says why. */
  lemma SaveRefusals(p: Primitives, s: State, input: SaveInput, id: string, now: string)
    requires Inv(p, s) && SaveStep(p, s, input, id, now).1.Err?
    ensures
      match SaveStep(p, s, input, id, now).1.code
      case InvalidInput => Blank(input.topicKey) || Blank(input.title) || !input.fieldsValid || !input.rowValid
      case RuleLinkRefused(e) => exists l | l in input.ruleLinks :: LinkExplains(p, s.memories, input, now, e, l)
      case _ => false
  {
    hide Blank, Inv, LinkExplains, FirstTargetRefusal, PinsOf, RevisionFor, SaveState;
    StoreDecisions.DecidableStore(p, s, "");
    PinRefusals(p.parses, input.ruleLinks);
    LinkRefusalsExplain(p, s.memories, input, now);
    match PinsOf(p.parses, input.ruleLinks)
    case Refused(e) =>
    case Pinned(links) =>
      PinnedLinks(p.parses, input.ruleLinks);
      TargetRefusals(p, s.memories, input, now, links);
  }

  lemma LinkRefusalsExplain(p: Primitives, ms: seq<Memory>, input: SaveInput, now: string)
    ensures forall l :: !ValidLink(p.parses, l) ==> LinkExplains(p, ms, input, now, InvalidRuleLink, l)
    ensures forall l, k | l in input.ruleLinks && k in input.ruleLinks && k.ref == l.ref && k != l ::
      LinkExplains(p, ms, input, now, VersionConflict, l)
  {
    hide Blank;
  }

  /** Every row of a run was stored by one save and still carries what that save was given. */
  lemma {:induction false} RowsCarryTheirInput(p: Primitives, ops: seq<Op>, i: nat) returns (k: nat)
    requires LegalRun(p, ops) && i < |Run(p, ops).memories|
    ensures k < |ops| && ops[k].Save? && |Run(p, ops[..k]).memories| == i
    ensures Savable(p, Run(p, ops[..k]).memories, ops[k].input, ops[k].now)
    ensures SavedFrom(p, Run(p, ops).memories[i], ops[k].input, ops[k].id, ops[k].now)
  {
    hide Savable, Inv, Step, Fresh;
    var shorter, op := ops[..|ops| - 1], ops[|ops| - 1];
    var s := Run(p, shorter);
    StepKeepsRows(p, s, op);
    RunKeepsInv(p, shorter);
    if i < |s.memories| {
      k := RowsCarryTheirInput(p, shorter, i);
      assert shorter[..k] == ops[..k];
      assert RowKept(s.memories[i], Run(p, ops).memories[i]);
    } else {
      k := |ops| - 1;
      StepSaves(p, s, op);
    }
  }

  lemma StepSaves(p: Primitives, s: State, op: Op)
    requires Inv(p, s) && LegalOp(s, op) && op.Save? && |Step(p, s, op).memories| > |s.memories|
    ensures Savable(p, s.memories, op.input, op.now)
    ensures SavedFrom(p, Step(p, s, op).memories[|s.memories|], op.input, op.id, op.now)
  {
    hide Savable, Inv, SaveStep, SavedFrom, Fresh;
    SaveStoresIff(p, s, op.input, op.id, op.now);
  }

  // --------------------------------------------------------------------- effects

  /** A status that no log entry leads to is the one the row started with. */
  lemma {:induction false} UnmovedReplays(ts: seq<Transition>, id: string, initial: Status)
    requires forall k | 0 <= k < |ts| :: ts[k].to in {Approved, Rejected, Returned, Voided}
    ensures Replay(ts, id, initial) == initial || Replay(ts, id, initial) in {Approved, Rejected, Returned, Voided}
  {
    if ts != [] {
      UnmovedReplays(ts[..|ts| - 1], id, initial);
    }
  }

  lemma {:induction false} LastEntry(ts: seq<Transition>, id: string, initial: Status) returns (k: nat)
    requires Replay(ts, id, initial) != initial
    ensures k < |ts| && ts[k].memoryId == id && ts[k].to == Replay(ts, id, initial)
  {
    if ts[|ts| - 1].memoryId == id {
      k := |ts| - 1;
    } else {
      k := LastEntry(ts[..|ts| - 1], id, initial);
    }
  }

  /** Every log entry, in its own words: decisions are a human's, about a pending row with a fiscal effect; voiding is
      about a current row and never an agent's; there are no other entries. */
  lemma EntriesAreGated(p: Primitives, ops: seq<Op>, k: nat)
    requires LegalRun(p, ops) && k < |Run(p, ops).transitions|
    ensures
      var s := Run(p, ops);
      var t, at := s.transitions[k], FindMemory(s.memories, s.transitions[k].memoryId);
      && at >= 0 && t.to in {Approved, Rejected, Returned, Voided}
      && (t.to != Voided ==> t.from == PendingReview && t.actorKind == Human && s.memories[at].fiscalEffect != NoEffect)
      && (t.to == Voided ==> t.from in {Active, PendingReview, Approved} && t.actorKind in {Human, System})
  {
    RunKeepsInv(p, ops);
    var s := Run(p, ops);
    forall l | 0 <= l <= k ensures s.transitions[l].to in {Approved, Rejected, Returned, Voided} {
      assert EntryOk(s.memories, s.transitions, l);
    }
    assert EntryOk(s.memories, s.transitions, k);
    var t := s.transitions[k];
    var at := FindMemory(s.memories, t.memoryId);
    UnmovedReplays(s.transitions[..k], t.memoryId, InitialStatus(s.memories[at].fiscalEffect));
  }

  /** The fiscal effect decides who waits for a human: active rows have none, and every row that is pending or was
      decided has one. */
  lemma EffectsDecideTheGate(p: Primitives, ops: seq<Op>, i: nat)
    requires LegalRun(p, ops) && i < |Run(p, ops).memories|
    ensures
      var m := Run(p, ops).memories[i];
      && (m.status == Active ==> m.fiscalEffect == NoEffect)
      && (m.status in {PendingReview, Approved, Rejected, Returned} ==> m.fiscalEffect != NoEffect)
  {
    RunKeepsInv(p, ops);
    var s := Run(p, ops);
    var m := s.memories[i];
    assert StatusReplays(m, s.transitions);
    forall k | 0 <= k < |s.transitions| ensures s.transitions[k].to in {Approved, Rejected, Returned, Voided} {
      EntriesAreGated(p, ops, k);
    }
    UnmovedReplays(s.transitions, m.id, InitialStatus(m.fiscalEffect));
    if m.status in {Approved, Rejected, Returned} {
      var k := LastEntry(s.transitions, m.id, InitialStatus(m.fiscalEffect));
      EntriesAreGated(p, ops, k);
      FindMemoryAt(s.memories, i);
    }
  }

  // -------------------------------------------------------------- gate and links

  /** The gate moves a row exactly when a human decides a pending one, or anyone but an agent voids a current one. */
  lemma GateMovesIff(p: Primitives, s: State, memoryId: string, to: Status, actor: string, actorKind: ActorKind, now: string)
    requires Inv(p, s) && to in {Approved, Rejected, Voided}
    ensures
      var after := GateStep(p, s, memoryId, to, actor, actorKind, now).0;
      && (after != s <==>
          exists m | m in s.memories ::
            m.id == memoryId &&
            if to == Voided then m.status in {Active, PendingReview, Approved} && actorKind in {Human, System}
            else m.status == PendingReview && actorKind == Human)
      && (after != s ==>
            exists m | m in s.memories ::
              m.id == memoryId && after.transitions == s.transitions + [Transition(memoryId, m.status, to, actor, actorKind, now)])
  {
    hide Inv, WithStatus, TransitionPayload;
    StoreDecisions.DecidableStore(p, s, "");
    var d := GateWrites(p, s, memoryId, to, actor, actorKind, now, GateStep(p, s, memoryId, to, actor, actorKind, now).0);
    var at := FindMemory(s.memories, memoryId);
    if at >= 0 {
      assert s.memories[at] in s.memories;
    }
    forall m | m in s.memories && m.id == memoryId ensures at >= 0 && s.memories[at] == m {
      FoundById(s.memories, m);
    }
  }

  /** A link is added exactly for a reference that is not blank and that the row does not have yet, and goes last. */
  lemma LinkAddsIff(p: Primitives, s: State, kind: LinkKind, memoryId: string, ref: string, actor: string, now: string)
    ensures
      var after, at := LinkStep(p, s, kind, memoryId, ref, actor, now).0, FindMemory(s.memories, memoryId);
      if !Blank(ref) && at >= 0 && ref !in (if kind == EvidenceLink then s.memories[at].evidenceRefs else s.memories[at].ruleRefs) then
        && |after.memories| == |s.memories| && after.memories[at].id == memoryId
        && after.memories[at].evidenceRefs == s.memories[at].evidenceRefs + (if kind == EvidenceLink then [ref] else [])
        && after.memories[at].ruleRefs == s.memories[at].ruleRefs + (if kind == RuleLink then [ref] else [])
        && |after.payloads| == |s.payloads| + (if kind == EvidenceLink && p.signing then 1 else 0)
        && (|after.payloads| > |s.payloads| ==>
              var x := after.payloads[|s.payloads|];
              x.subjectId == memoryId && x.principalId == actor && x.issuedAt == now && x.evidenceRef == ref)
      else after == s
  {
    hide Blank;
    var d := LinkWrites(p, s, kind, memoryId, ref, actor, now, LinkStep(p, s, kind, memoryId, ref, actor, now).0);
  }

  // ------------------------------------------------------------------- decisions

  /** The row of a decision event stands where the decision left it, or where an approved row went from there. */
  predicate StandsBy(ms: seq<Memory>, e: DecisionEvent) {
    var at := FindMemory(ms, e.memoryId);
    at >= 0 &&
    match e.toStatus
    case Approved => ms[at].status in {Approved, Voided, Superseded}
    case Rejected => ms[at].status == Rejected
    case Returned => ms[at].status == Returned
    case _ => false
  }

  lemma StandsLater(p: Primitives, s: State, op: Op, e: DecisionEvent)
    requires LegalOp(s, op) && StandsBy(s.memories, e)
    ensures StandsBy(Step(p, s, op).memories, e)
  {
    hide Step, LegalOp, RefsGrow;
    var after := Step(p, s, op);
    StepKeepsRows(p, s, op);
    StoreInvariants.FindStable(s.memories, after.memories, e.memoryId);
    assert RowKept(s.memories[FindMemory(s.memories, e.memoryId)], after.memories[FindMemory(s.memories, e.memoryId)]);
  }

  lemma DecidedRowMoved(p: Primitives, ms: seq<Memory>, at: nat, to: Status, e: DecisionEvent)
    requires DistinctIds(ms) && at < |ms| && e.memoryId == ms[at].id && e.toStatus == to
    requires to == Approved || to == Rejected || to == Returned
    ensures StandsBy(ms[at := WithStatus(p, ms[at], to)], e)
  {
    FindMemoryAt(ms, at);
    FindAfterUpdate(ms, at, WithStatus(p, ms[at], to), ms[at].id);
  }

  lemma NewApprovalStands(p: Primitives, s: State, op: Op)
    requires Inv(p, s) && op.Approve? && Step(p, s, op).approvals != s.approvals
    ensures
      var after := Step(p, s, op);
      |after.approvals| == |s.approvals| + 1 && after.approvals[..|s.approvals|] == s.approvals &&
      StandsBy(after.memories, after.approvals[|s.approvals|])
  {
    hide ApprovalCheck, CommitApproval, CommandHash, Inv, Blank, StandsBy, WithStatus;
    var Approve(c, who, policy, eventId, now) := op;
    DecidableStore(p, s, LedgerKey(who.tenantId, c.requestId));
    var (at, policyVersion) := ApprovalCheck(p, s, c, who, policy).value;
    ApprovalGrows(p, s, c, who, policy, eventId, now);
    var d := ApprovalWrites(p, s, at, c, who, policyVersion, eventId, now);
    DecidedRowMoved(p, s.memories, at, Approved, Step(p, s, op).approvals[|s.approvals|]);
  }

  lemma NewTurnDownStands(p: Primitives, s: State, op: Op)
    requires Inv(p, s) && op.Review? && Step(p, s, op).decisions != s.decisions
    ensures
      var after := Step(p, s, op);
      |after.decisions| == |s.decisions| + 1 && after.decisions[..|s.decisions|] == s.decisions &&
      StandsBy(after.memories, after.decisions[|s.decisions|])
  {
    hide ReviewCheck, CommitReview, CommandHash, Inv, Blank, StandsBy, WithStatus;
    var Review(c, who, d, eventId, now) := op;
    DecidableStore(p, s, LedgerKey(who.tenantId, c.requestId));
    var at := ReviewCheck(p, s, c, who, d).value;
    ReviewGrows(p, s, c, who, d, eventId, now);
    var w := ReviewWrites(p, s, at, c, who, d, eventId, now);
    DecidedRowMoved(p, s.memories, at, StatusOf(d), Step(p, s, op).decisions[|s.decisions|]);
  }

  ghost predicate AllStand(ms: seq<Memory>, events: seq<DecisionEvent>) {
    forall k | 0 <= k < |events| :: StandsBy(ms, events[k])
  }

  /** Decisions stand: along every run a row that was turned down stays so, and an approved one is at most voided or
      superseded afterwards. */
  lemma {:induction false} DecisionsStand(p: Primitives, ops: seq<Op>)
    requires LegalRun(p, ops)
    ensures AllStand(Run(p, ops).memories, Run(p, ops).approvals) && AllStand(Run(p, ops).memories, Run(p, ops).decisions)
  {
    hide StandsBy, Step, LegalOp, Inv;
    if ops != [] {
      var shorter, op := ops[..|ops| - 1], ops[|ops| - 1];
      var s, after := Run(p, shorter), Run(p, ops);
      DecisionsStand(p, shorter);
      RunKeepsInv(p, shorter);
      OthersRecordNone(p, s, op);
      if after.approvals != s.approvals {
        NewApprovalStands(p, s, op);
      }
      if after.decisions != s.decisions {
        NewTurnDownStands(p, s, op);
      }
      EventsStandLater(p, s, op, s.approvals, after.approvals);
      EventsStandLater(p, s, op, s.decisions, after.decisions);
    }
  }

  lemma EventsStandLater(p: Primitives, s: State, op: Op, events: seq<DecisionEvent>, longer: seq<DecisionEvent>)
    requires LegalOp(s, op) && AllStand(s.memories, events)
    requires longer == events || (|longer| == |events| + 1 && longer[..|events|] == events &&
                                  StandsBy(Step(p, s, op).memories, longer[|events|]))
    ensures AllStand(Step(p, s, op).memories, longer)
  {
    hide StandsBy, Step, LegalOp;
    forall k | 0 <= k < |longer| ensures StandsBy(Step(p, s, op).memories, longer[k]) {
      if k < |events| {
        assert longer[k] == longer[..|events|][k] == events[k];
        StandsLater(p, s, op, events[k]);
      }
    }
  }

  /** Separation of duties: nobody turned down a row of their own. The row stays turned down, and its reason was
      given wherever the return, the materiality or the effect calls for one. */
  lemma NobodyTurnsDownTheirOwn(p: Primitives, ops: seq<Op>, k: nat)
    requires LegalRun(p, ops) && k < |Run(p, ops).decisions|
    ensures
      var s := Run(p, ops);
      var e, at := s.decisions[k], FindMemory(s.memories, s.decisions[k].memoryId);
      at >= 0 &&
      var m := s.memories[at];
      && (m.source.actorId == "" || m.source.actorId != e.principal.subjectId)
      && (e.toStatus == Returned ==> !Blank(e.reason))
      && (m.materialityLevel in {Material, Critical} ==> !Blank(e.reason))
      && (m.fiscalEffect in {Closing, Declaration, SunatFiling} ==> !Blank(e.reason))
      && e.toStatus in {Rejected, Returned} && m.status == e.toStatus
      && m.scope.Company? && e.tenantId == m.scope.organizationId && e.companyId == m.scope.companyId
  {
    hide Run, LegalRun, Blank;
    var n, m := TurnDownsWereAllowed(p, ops, k);
    RowIsFoundLater(p, ops, n, m);
    DecisionsStand(p, ops);
    assert StandsBy(Run(p, ops).memories, Run(p, ops).decisions[k]);
  }

  /** Every approval was given by a principal of the row's tenant whom a policy allowed, for a stated reason; the row
      was pending and was not turned down since. */
  lemma ApprovalsWereGiven(p: Primitives, ops: seq<Op>, k: nat) returns (n: nat)
    requires LegalRun(p, ops) && k < |Run(p, ops).approvals|
    ensures n < |ops| && ops[n].Approve?
    ensures
      var s := Run(p, ops);
      var e, at := s.approvals[k], FindMemory(s.memories, s.approvals[k].memoryId);
      at >= 0 &&
      var m := s.memories[at];
      && ops[n].who.subjectId == e.principal.subjectId && ops[n].who.tenantId == e.tenantId
      && (exists was | was in Run(p, ops[..n]).memories && was.id == m.id && was.status == PendingReview ::
            Becomes(was, m) && ops[n].policy(ops[n].who, was).allowed && ops[n].policy(ops[n].who, was).policyVersion == e.policyVersion)
      && !Blank(e.reason) && e.toStatus == Approved && m.status in {Approved, Voided, Superseded}
      && m.scope.Company? && e.tenantId == m.scope.organizationId && e.companyId == m.scope.companyId
  {
    hide Run, LegalRun, Blank;
    var was;
    n, was := ApprovalsWereAllowed(p, ops, k);
    RowIsFoundLater(p, ops, n, was);
    DecisionsStand(p, ops);
    assert StandsBy(Run(p, ops).memories, Run(p, ops).approvals[k]);
  }
}
