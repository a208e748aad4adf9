/** What every memory operation keeps: well-formed chains, a log that replays, fresh envelope
    caches, one decision per row, completed ledgers and a receipt log that the checks accept. */
module StoreInvariants {
  import opened Text
  import opened Records
  import opened StoreModel
  import opened RevisionChains
  import opened StatusLog
  import opened DecisionLedger
  import opened ReceiptLog

  /** The cached envelope of every row that is not superseded is the one computed afresh. */
  ghost predicate CacheFresh(p: Primitives, ms: seq<Memory>) {
    forall i | 0 <= i < |ms| && ms[i].status != Superseded :: ms[i].envelopeHash == Envelope(p, ms[i])
  }

  ghost predicate RowPart(p: Primitives, s: State) {
    && RowsOk(p, s.memories)
    && CacheFresh(p, s.memories)
    && LogOk(s.memories, s.transitions)
  }

  ghost predicate DecisionPart(s: State) {
    && DecisionsOk(s.memories, s.approvals, s.decisions)
    && LedgerOk(s.approvals, s.approvalLedger)
    && LedgerOk(s.decisions, s.reviewLedger)
  }

  /** No two stored rows of different topics or scopes share a chain key. */
  ghost predicate KeysSeparate(p: Primitives, ms: seq<Memory>) {
    forall i, j | 0 <= i < |ms| && 0 <= j < |ms| && KeyOf(p, ms[i]) == KeyOf(p, ms[j]) ::
      ms[i].topicKey == ms[j].topicKey && ms[i].scope == ms[j].scope
  }

  /** The row whose scope a memory receipt carries: its subject, or the revision that superseded it. */
  function CarriedRow(ms: seq<Memory>, payload: ReceiptPayload): (at: int)
    ensures -1 <= at < |ms|
  {
    FindMemory(ms, if payload.action == MEMORY_SUPERSEDED then payload.successorId else payload.subjectId)
  }

  /** A memory receipt is about a stored row and carries the scope of a row of the same chain. */
  predicate ScopedAt(p: Primitives, ms: seq<Memory>, payload: ReceiptPayload) {
    payload.subjectType == MEMORY_SUBJECT ==>
      var at, carried := FindMemory(ms, payload.subjectId), CarriedRow(ms, payload);
      && at >= 0 && carried >= 0 && KeyOf(p, ms[at]) == KeyOf(p, ms[carried])
      && ScopeOf(ms[carried].scope) == PayloadScope(payload)
  }

  ghost predicate ScopesOk(p: Primitives, ms: seq<Memory>, payloads: seq<ReceiptPayload>) {
    forall i | 0 <= i < |payloads| :: ScopedAt(p, ms, payloads[i])
  }

  ghost predicate ReceiptPart(p: Primitives, s: State) {
    ReceiptsOk(p, s) && SubjectsKnown(s) && ScopesOk(p, s.memories, s.payloads)
  }

  // -------------------------------------------------------------- row effects

  /** Row `at` moved to a new status, with the log entry t. */
  ghost predicate Moved(p: Primitives, s: State, after: State, at: int, t: Transition) {
    && 0 <= at < |s.memories| && CanVoid(s.memories[at].status) && t.to != Superseded
    && after.memories == s.memories[at := WithStatus(p, s.memories[at], t.to)]
    && after.transitions == s.transitions + [t]
    && t.memoryId == s.memories[at].id && t.from == s.memories[at].status && Gated(t)
  }

  lemma MovedKeepsRows(p: Primitives, s: State, after: State, at: int, t: Transition)
    requires RowPart(p, s) && Moved(p, s, after, at, t)
    ensures RowPart(p, after)
  {
    var m := WithStatus(p, s.memories[at], t.to);
    UpdateKeepsRows(p, s.memories, at, m);
    MoveKeepsLog(s.memories, s.transitions, at, m, t);
  }

  /** Row `at` took one more reference. */
  ghost predicate Grew(p: Primitives, s: State, after: State, at: int, kind: LinkKind, ref: string) {
    && 0 <= at < |s.memories|
    && after.memories == s.memories[at := Linked(p, s.memories[at], kind, ref)]
    && after.transitions == s.transitions
  }

  lemma GrewKeepsRows(p: Primitives, s: State, after: State, at: int, kind: LinkKind, ref: string)
    requires RowPart(p, s) && Grew(p, s, after, at, kind, ref)
    ensures RowPart(p, after)
  {
    var m := Linked(p, s.memories[at], kind, ref);
    UpdateKeepsRows(p, s.memories, at, m);
    UpdateKeepsLog(s.memories, s.transitions, at, m);
  }

  /** A new revision was saved, superseding the chain's current one if there was one. */
  ghost predicate Stored(p: Primitives, s: State, after: State, m: Memory) {
    && after.memories == Saved(p, s.memories, m)
    && after.transitions == s.transitions
    && m.id != "" && FindMemory(s.memories, m.id) < 0
    && m.revision == (var at := LatestAt(p, s.memories, KeyOf(p, m)); if at < 0 then 1 else s.memories[at].revision + 1)
    && m.status == InitialStatus(m.fiscalEffect) && m.supersedesId == "" && m.envelopeHash == Envelope(p, m)
  }

  lemma StoredKeepsRows(p: Primitives, s: State, after: State, m: Memory)
    requires RowPart(p, s) && Stored(p, s, after, m)
    ensures RowPart(p, after)
  {
    SaveKeepsRows(p, s.memories, m);
    var at := LatestAt(p, s.memories, KeyOf(p, m));
    if at >= 0 && CanVoid(s.memories[at].status) {
      var superseded := Replacing(s.memories[at], m);
      UpdateKeepsLog(s.memories, s.transitions, at, superseded);
      FindAfterUpdate(s.memories, at, superseded, m.id);
      AppendKeepsLog(s.memories[at := superseded], s.transitions, m);
    } else {
      AppendKeepsLog(s.memories, s.transitions, m);
    }
  }

  lemma StoredKeepsDecisions(p: Primitives, s: State, after: State, m: Memory)
    requires DecisionsOk(s.memories, s.approvals, s.decisions) && Stored(p, s, after, m)
    ensures DecisionsOk(after.memories, s.approvals, s.decisions)
  {
    var at := LatestAt(p, s.memories, KeyOf(p, m));
    if at >= 0 && CanVoid(s.memories[at].status) {
      var superseded := Replacing(s.memories[at], m);
      UpdateKeepsDecisions(s.memories, s.approvals, s.decisions, at, superseded);
      FindAfterUpdate(s.memories, at, superseded, m.id);
      AppendKeepsDecisions(s.memories[at := superseded], s.approvals, s.decisions, m);
    } else {
      AppendKeepsDecisions(s.memories, s.approvals, s.decisions, m);
    }
  }

  // ---------------------------------------------------------------- receipts

  /** Rows keep their ids, topics and scopes, and appended rows are new. */
  ghost predicate KeepsSubjects(ms: seq<Memory>, after: seq<Memory>) {
    && |ms| <= |after|
    && (forall i | 0 <= i < |ms| :: ms[i].id == after[i].id && ms[i].scope == after[i].scope && ms[i].topicKey == after[i].topicKey)
    && (forall i | |ms| <= i < |after| :: FindMemory(ms, after[i].id) < 0)
  }

  lemma {:induction false} FindStable(ms: seq<Memory>, after: seq<Memory>, id: string)
    requires |ms| <= |after| && forall i | 0 <= i < |ms| :: ms[i].id == after[i].id
    requires forall i | |ms| <= i < |after| :: after[i].id != id
    ensures FindMemory(after, id) == FindMemory(ms, id)
    decreases |after|
  {
    if |ms| < |after| {
      FindStable(ms, after[..|after| - 1], id);
    } else if ms != [] {
      FindStable(ms[..|ms| - 1], after[..|after| - 1], id);
    }
  }

  lemma ScopeStays(p: Primitives, ms: seq<Memory>, after: seq<Memory>, payload: ReceiptPayload)
    requires KeepsSubjects(ms, after) && ScopedAt(p, ms, payload)
    ensures ScopedAt(p, after, payload)
    ensures payload.subjectType == MEMORY_SUBJECT ==> FindMemory(after, payload.subjectId) == FindMemory(ms, payload.subjectId)
  {
    if payload.subjectType == MEMORY_SUBJECT {
      FindStable(ms, after, payload.subjectId);
      FindStable(ms, after, if payload.action == MEMORY_SUPERSEDED then payload.successorId else payload.subjectId);
    }
  }

  /** Rewriting rows without touching their subjects keeps the receipts in order. */
  lemma RewriteKeepsReceipts(p: Primitives, s: State, after: State)
    requires ReceiptPart(p, s) && KeepsSubjects(s.memories, after.memories)
    requires after.receipts == s.receipts && after.payloads == s.payloads
    ensures ReceiptPart(p, after)
  {
    hide KeepsSubjects, ScopedAt, ReceiptsOk;
    forall i | 0 <= i < |s.payloads|
      ensures ScopedAt(p, after.memories, s.payloads[i])
      ensures s.payloads[i].subjectType == MEMORY_SUBJECT ==>
                FindMemory(after.memories, s.payloads[i].subjectId) == FindMemory(s.memories, s.payloads[i].subjectId)
    {
      ScopeStays(p, s.memories, after.memories, s.payloads[i]);
    }
    SameReceiptsOk(p, s, after);
  }

  lemma SameReceiptsOk(p: Primitives, s: State, after: State)
    requires ReceiptsOk(p, s) && after.receipts == s.receipts && after.payloads == s.payloads
    ensures ReceiptsOk(p, after)
  {
  }

  /** Emitting a receipt in the scope of a stored subject keeps the receipts in order. */
  lemma EmitKeepsPart(p: Primitives, s: State, payload: ReceiptPayload)
    requires ReceiptPart(p, s)
    requires payload.action in RECEIPT_ACTIONS && payload.subjectType in RECEIPT_SUBJECT_TYPES
    requires ScopedAt(p, s.memories, payload)
    ensures ReceiptPart(p, Emit(p, s, payload))
  {
    EmitKeepsReceipts(p, s, payload);
  }
}
