/** Each memory operation keeps the invariants of the store. */
module StoreSteps {
  import opened Records
  import opened StoreModel
  import opened RevisionChains
  import opened StatusLog
  import opened DecisionLedger
  import opened ReceiptLog
  import opened StoreInvariants

  /** Everything the memory side of the store keeps. */
  ghost predicate MemoryInv(p: Primitives, s: State) {
    RowPart(p, s) && DecisionPart(s) && ReceiptPart(p, s)
  }

  // -------------------------------------------------------------------- save

  predicate SameSubjects(ms: seq<Memory>, mid: seq<Memory>) {
    |ms| == |mid| &&
    forall i | 0 <= i < |ms| :: ms[i].id == mid[i].id && ms[i].scope == mid[i].scope && ms[i].topicKey == mid[i].topicKey
  }

  lemma AppendKeepsSubjects(ms: seq<Memory>, mid: seq<Memory>, m: Memory)
    requires SameSubjects(ms, mid) && FindMemory(ms, m.id) < 0
    ensures KeepsSubjects(ms, mid + [m])
    ensures FindMemory(mid + [m], m.id) == |ms| && (mid + [m])[|ms|] == m
  {
    var after := mid + [m];
    assert after[|ms|] == m;
    assert forall i | 0 <= i < |ms| :: after[i] == mid[i];
  }

  lemma SavedKeepsSubjects(p: Primitives, ms: seq<Memory>, m: Memory, saved: seq<Memory>)
    requires FindMemory(ms, m.id) < 0 && saved == Saved(p, ms, m)
    ensures KeepsSubjects(ms, saved)
    ensures FindMemory(saved, m.id) == |ms| && saved[|ms|] == m
  {
    var at := LatestAt(p, ms, KeyOf(p, m));
    var mid := if at >= 0 && CanVoid(ms[at].status) then ms[at := Replacing(ms[at], m)] else ms;
    assert saved == mid + [m];
    AppendKeepsSubjects(ms, mid, m);
  }

  /** The receipt of a supersession carries the scope of the revision that superseded. */
  lemma SupersededIsScoped(p: Primitives, ms: seq<Memory>, m: Memory, at: nat, saved: seq<Memory>)
    requires DistinctIds(ms) && FindMemory(ms, m.id) < 0
    requires at < |ms| && KeyOf(p, ms[at]) == KeyOf(p, m) && saved == Saved(p, ms, m)
    ensures ScopedAt(p, saved, SupersededPayload(p, ms[at], Replacing(ms[at], m), m))
  {
    SavedKeepsSubjects(p, ms, m, saved);
    FindMemoryAt(ms, at);
    FindStable(ms, saved, ms[at].id);
  }

  /** The rows and relations of a save, before its receipts are signed. */
  ghost predicate StoredRows(p: Primitives, s: State, m: Memory, stored: State) {
    && stored.memories == Saved(p, s.memories, m)
    && stored.receipts == s.receipts && stored.payloads == s.payloads
  }

  lemma StoredKeepsReceipts(p: Primitives, s: State, m: Memory, stored: State)
    requires ReceiptPart(p, s) && FindMemory(s.memories, m.id) < 0 && StoredRows(p, s, m, stored)
    ensures ReceiptPart(p, stored)
  {
    SavedKeepsSubjects(p, s.memories, m, stored.memories);
    RewriteKeepsReceipts(p, s, stored);
  }

  lemma RecordKeepsReceipts(p: Primitives, s: State, m: Memory, stored: State, after: State)
    requires ReceiptPart(p, s) && FindMemory(s.memories, m.id) < 0 && StoredRows(p, s, m, stored)
    requires after == Emit(p, stored, RecordedPayload(p, m))
    ensures ReceiptPart(p, after)
  {
    StoredKeepsReceipts(p, s, m, stored);
    SavedKeepsSubjects(p, s.memories, m, stored.memories);
    assert |MEMORY_RECORDED| != |MEMORY_SUPERSEDED|;
    EmitKeepsPart(p, stored, RecordedPayload(p, m));
  }

  lemma SupersedeKeepsReceipts(p: Primitives, s: State, m: Memory, at: nat, stored: State, after: State)
    requires ReceiptPart(p, s) && DistinctIds(s.memories) && FindMemory(s.memories, m.id) < 0
    requires at < |s.memories| && KeyOf(p, s.memories[at]) == KeyOf(p, m)
    requires StoredRows(p, s, m, stored) && after == SignSuperseding(p, stored, s.memories[at], m)
    ensures ReceiptPart(p, after)
  {
    StoredKeepsReceipts(p, s, m, stored);
    var ms := s.memories;
    var payload := SupersededPayload(p, ms[at], Replacing(ms[at], m), m);
    SavedKeepsSubjects(p, ms, m, stored.memories);
    SupersededIsScoped(p, ms, m, at, stored.memories);
    EmitKeepsPart(p, stored, payload);
    assert |MEMORY_RECORDED| != |MEMORY_SUPERSEDED|;
    EmitKeepsPart(p, Emit(p, stored, payload), RecordedPayload(p, m));
  }

  lemma SaveKeepsReceipts(p: Primitives, s: State, m: Memory, after: State)
    requires DistinctIds(s.memories) && ReceiptPart(p, s) && m.id != "" && FindMemory(s.memories, m.id) < 0
    requires after == SaveState(p, s, m)
    ensures ReceiptPart(p, after)
  {
    var at := LatestAt(p, s.memories, KeyOf(p, m));
    var stored := s.(memories := Saved(p, s.memories, m), relations := after.relations);
    assert StoredRows(p, s, m, stored);
    if at >= 0 && CanVoid(s.memories[at].status) {
      SupersedeKeepsReceipts(p, s, m, at, stored, after);
    } else {
      RecordKeepsReceipts(p, s, m, stored, after);
    }
  }

  /** The new revision that a save stores. */
  ghost predicate FreshRevision(p: Primitives, s: State, m: Memory) {
    && m.id != "" && FindMemory(s.memories, m.id) < 0
    && m.revision == (var at := LatestAt(p, s.memories, KeyOf(p, m)); if at < 0 then 1 else s.memories[at].revision + 1)
    && m.status == InitialStatus(m.fiscalEffect) && m.supersedesId == "" && m.envelopeHash == Envelope(p, m)
  }

  lemma RevisionKeepsRows(p: Primitives, s: State, m: Memory, stored: State)
    requires MemoryInv(p, s) && FreshRevision(p, s, m) && stored == StoredState(p, s, m)
    ensures RowPart(p, stored) && DecisionPart(stored)
  {
    hide RowsOk, CacheFresh, LogOk, DecisionsOk, LedgerOk, ReceiptsOk, SubjectsKnown, ScopesOk;
    StoredKeepsRows(p, s, stored, m);
    StoredKeepsDecisions(p, s, stored, m);
  }

  lemma RevisionKeepsInv(p: Primitives, s: State, m: Memory, after: State)
    requires MemoryInv(p, s) && FreshRevision(p, s, m) && after == SaveState(p, s, m)
    ensures MemoryInv(p, after)
  {
    hide CacheFresh, LogOk, DecisionsOk, LedgerOk, ReceiptsOk, SubjectsKnown, ScopesOk;
    var stored := StoredState(p, s, m);
    RevisionKeepsRows(p, s, m, stored);
    SaveKeepsReceipts(p, s, m, after);
    SaveOnlySigns(p, s, m, after);
    SigningKeepsRows(p, stored, after);
  }

  lemma SigningKeepsRows(p: Primitives, s: State, after: State)
    requires RowPart(p, s) && DecisionPart(s) && OnlySigned(s, after)
    ensures RowPart(p, after) && DecisionPart(after)
  {
  }

  lemma RevisionForIsFresh(p: Primitives, s: State, input: SaveInput, id: string, now: string)
    requires id != "" && FindMemory(s.memories, id) < 0
    ensures FreshRevision(p, s, RevisionFor(p, s, input, id, now))
  {
  }

  lemma SaveKeepsInv(p: Primitives, s: State, input: SaveInput, id: string, now: string, after: State)
    requires MemoryInv(p, s) && id != "" && FindMemory(s.memories, id) < 0
    requires after == SaveStep(p, s, input, id, now).0
    ensures MemoryInv(p, after)
  {
    if SaveRefusal(p, s, input, now).None? {
      RevisionForIsFresh(p, s, input, id, now);
      RevisionKeepsInv(p, s, RevisionFor(p, s, input, id, now), after);
    }
  }

  // ------------------------------------------------- moves, links and decisions

  /** The receipt of an act on row `at` keeps the receipts in order. */
  lemma RowReceiptKept(p: Primitives, s: State, s1: State, at: nat, m: Memory, payload: ReceiptPayload)
    requires ReceiptPart(p, s) && DistinctIds(s.memories)
    requires at < |s.memories| && SameIdentity(s.memories[at], m) && s1.memories == s.memories[at := m]
    requires s1.receipts == s.receipts && s1.payloads == s.payloads
    requires AboutMemory(payload, m.id) && payload.action in RECEIPT_ACTIONS && |payload.action| != |MEMORY_SUPERSEDED|
    requires ScopeOf(m.scope) == PayloadScope(payload)
    ensures ReceiptPart(p, s1) && ReceiptPart(p, Emit(p, s1, payload))
  {
    RewriteKeepsReceipts(p, s, s1);
    FindMemoryAt(s.memories, at);
    FindAfterUpdate(s.memories, at, m, m.id);
    EmitKeepsPart(p, s1, payload);
  }

  lemma GateKeepsInv(p: Primitives, s: State, memoryId: string, to: Status, actor: string, actorKind: ActorKind,
                     timestamp: string, after: State)
    requires MemoryInv(p, s) && GateTarget(to)
    requires after == GateStep(p, s, memoryId, to, actor, actorKind, timestamp).0
    ensures MemoryInv(p, after)
  {
    var at := FindMemory(s.memories, memoryId);
    if at >= 0 && GateAllows(s.memories[at].status, to, actorKind) {
      var before := s.memories[at];
      var m := WithStatus(p, before, to);
      var t := Transition(memoryId, before.status, to, actor, actorKind, timestamp);
      MovedKeepsRows(p, s, after, at, t);
      UpdateKeepsDecisions(s.memories, s.approvals, s.decisions, at, m);
      var s1 := s.(memories := s.memories[at := m], transitions := s.transitions + [t]);
      RowReceiptKept(p, s, s1, at, m, TransitionPayload(p, before, m, actor, timestamp));
    }
  }

  lemma LinkKeepsInv(p: Primitives, s: State, kind: LinkKind, memoryId: string, ref: string, actor: string,
                     now: string, after: State)
    requires MemoryInv(p, s)
    requires after == LinkStep(p, s, kind, memoryId, ref, actor, now).0
    ensures MemoryInv(p, after)
  {
    var at := FindMemory(s.memories, memoryId);
    if at >= 0 && after != s {
      var before := s.memories[at];
      var m := Linked(p, before, kind, ref);
      GrewKeepsRows(p, s, after, at, kind, ref);
      UpdateKeepsDecisions(s.memories, s.approvals, s.decisions, at, m);
      RowReceiptKept(p, s, s.(memories := s.memories[at := m]), at, m, LinkedPayload(p, before, m, ref, actor, now));
    }
  }

  /** The row and receipt side of a decision, before its event and ledger entry are written. */
  lemma DecideKeepsParts(p: Primitives, s: State, at: nat, to: Status, c: ApproveCommand, who: Principal,
                         policyVersion: string, now: string, decided: State)
    requires MemoryInv(p, s) && at < |s.memories| && s.memories[at].status == PendingReview
    requires to == Approved || to == Rejected || to == Returned
    requires decided == Decide(p, s, at, to, c, who, policyVersion, now)
    ensures RowPart(p, decided) && ReceiptPart(p, decided)
    ensures decided.memories == s.memories[at := WithStatus(p, s.memories[at], to)]
  {
    var before := s.memories[at];
    var m := WithStatus(p, before, to);
    var t := Transition(before.id, PendingReview, to, who.subjectId, Human, now);
    MovedKeepsRows(p, s, decided, at, t);
    var s1 := s.(memories := s.memories[at := m], transitions := s.transitions + [t]);
    RowReceiptKept(p, s, s1, at, m, DecidedPayload(p, c, who, before, m, policyVersion, now));
  }

  /** Event and ledger entry of a decision on row `at`. */
  lemma EventKeepsDecisions(p: Primitives, s: State, at: nat, to: Status, c: ApproveCommand, who: Principal,
                            e: DecisionEvent, r: Reservation)
    requires MemoryInv(p, s) && at < |s.memories| && s.memories[at].status == PendingReview && to != PendingReview
    requires e.memoryId == s.memories[at].id && e.tenantId == who.tenantId && e.requestId == c.requestId
    requires StandsFor(e, r)
    ensures
      var ms, key := s.memories[at := WithStatus(p, s.memories[at], to)], LedgerKey(who.tenantId, c.requestId);
      && DecisionsOk(ms, s.approvals + [e], s.decisions)
      && DecisionsOk(ms, s.approvals, s.decisions + [e])
      && (key !in s.approvalLedger ==> LedgerOk(s.approvals + [e], s.approvalLedger[key := r]))
      && (key !in s.reviewLedger ==> LedgerOk(s.decisions + [e], s.reviewLedger[key := r]))
  {
    var m := WithStatus(p, s.memories[at], to);
    DecideKeepsDecisions(s.memories, s.approvals, s.decisions, at, m, e);
    if EventKey(e) !in s.approvalLedger {
      RecordKeepsLedger(s.approvals, s.approvalLedger, e, r);
    }
    if EventKey(e) !in s.reviewLedger {
      RecordKeepsLedger(s.decisions, s.reviewLedger, e, r);
    }
  }

  /** `decided` is s with row `at` decided and nothing but rows, log and receipts changed. */
  ghost predicate Decided(p: Primitives, s: State, decided: State, at: nat, to: Status) {
    && RowPart(p, decided) && ReceiptPart(p, decided)
    && at < |s.memories| && s.memories[at].status == PendingReview && to != PendingReview
    && decided.memories == s.memories[at := WithStatus(p, s.memories[at], to)]
    && decided.approvals == s.approvals && decided.decisions == s.decisions
    && decided.approvalLedger == s.approvalLedger && decided.reviewLedger == s.reviewLedger
  }

  /** Writing the event and the ledger entry completes a decision. */
  lemma EventKeepsInv(p: Primitives, s: State, decided: State, at: nat, to: Status, c: ApproveCommand, who: Principal,
                      e: DecisionEvent, r: Reservation)
    requires MemoryInv(p, s) && Decided(p, s, decided, at, to)
    requires e.memoryId == s.memories[at].id && e.tenantId == who.tenantId && e.requestId == c.requestId
    requires StandsFor(e, r)
    ensures
      var key := LedgerKey(who.tenantId, c.requestId);
      && (key !in s.approvalLedger ==>
            DecisionPart(decided.(approvals := s.approvals + [e], approvalLedger := s.approvalLedger[key := r])))
      && (key !in s.reviewLedger ==>
            DecisionPart(decided.(decisions := s.decisions + [e], reviewLedger := s.reviewLedger[key := r])))
  {
    EventKeepsDecisions(p, s, at, to, c, who, e, r);
  }

  /** Only rows, log and receipts matter to the row and receipt parts. */
  lemma PartsCarryOver(p: Primitives, s: State, after: State)
    requires RowPart(p, s) && ReceiptPart(p, s)
    requires after.memories == s.memories && after.transitions == s.transitions
    requires after.receipts == s.receipts && after.payloads == s.payloads
    ensures RowPart(p, after) && ReceiptPart(p, after)
  {
  }

  /** A reservation of a store that keeps its ledgers is always completed. */
  lemma ReservationsAreComplete(s: State, key: string)
    requires DecisionPart(s)
    ensures key in s.approvalLedger ==> s.approvalLedger[key].result.Some?
    ensures key in s.reviewLedger ==> s.reviewLedger[key].result.Some?
  {
    assert key in s.approvalLedger ==> Recorded(s.approvals, key, s.approvalLedger[key]);
    assert key in s.reviewLedger ==> Recorded(s.decisions, key, s.reviewLedger[key]);
  }

  lemma ApproveKeepsInv(p: Primitives, s: State, c: ApproveCommand, who: Principal, policy: ApprovalPolicy,
                        eventId: string, now: string, after: State)
    requires MemoryInv(p, s)
    requires after == ApproveStep(p, s, c, who, policy, eventId, now).0
    ensures MemoryInv(p, after)
  {
    ReservationsAreComplete(s, LedgerKey(who.tenantId, c.requestId));
    var check := ApprovalCheck(p, s, c, who, policy);
    if after != s && check.Ok? {
      var (at, policyVersion) := check.value;
      var before := s.memories[at];
      var e := EventFor(p, c, who, before, WithStatus(p, before, Approved), policyVersion, eventId, now);
      var r := Reservation(CommandHash(p, c), who.subjectId, who.membershipId, Some(ResultFor(e, who)));
      var decided := Decide(p, s, at, Approved, c, who, policyVersion, now);
      DecideKeepsParts(p, s, at, Approved, c, who, policyVersion, now, decided);
      EventKeepsInv(p, s, decided, at, Approved, c, who, e, r);
      PartsCarryOver(p, decided, after);
    }
  }

  lemma ReviewKeepsInv(p: Primitives, s: State, c: ApproveCommand, who: Principal, d: Decision,
                       eventId: string, now: string, after: State)
    requires MemoryInv(p, s)
    requires after == ReviewStep(p, s, c, who, d, eventId, now).0
    ensures MemoryInv(p, after)
  {
    var check := ReviewCheck(p, s, c, who, d);
    if after != s && check.Ok? {
      var at := check.value;
      var before := s.memories[at];
      var e := EventFor(p, c, who, before, WithStatus(p, before, StatusOf(d)), KERNEL_POLICY_VERSION, eventId, now);
      var r := Reservation(CommandHash(p, c), who.subjectId, who.membershipId, Some(ResultFor(e, who)));
      var decided := Decide(p, s, at, StatusOf(d), c, who, KERNEL_POLICY_VERSION, now);
      DecideKeepsParts(p, s, at, StatusOf(d), c, who, KERNEL_POLICY_VERSION, now, decided);
      EventKeepsInv(p, s, decided, at, StatusOf(d), c, who, e, r);
      PartsCarryOver(p, decided, after);
    }
  }
}
