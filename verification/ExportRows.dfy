/** The rows of the audit bundle, their canonical order, the as-of instant and the content digest. */
module ExportRows {
  import opened Text
  import opened Records
  import opened ExportOrdinals
  import opened Sorting
  import opened Lists
  import opened ExportReceipts

  datatype RowScope = RowScope(tenantId: string, companyId: string, ruc: string, period: string)

  datatype BytesState = BytesStored | BytesPurged | BytesIntended | BytesUnknown(token: string)

  datatype ExecutionState = ExecutionIntent | ExecutionInterrupted | ExecutionCompleted | ExecutionOther(token: string)

  // Columns that take part in no check and no order are kept as one text each.

  datatype ObjectRow = ObjectRow(
    objectId: string, scope: RowScope, storedAt: string, bytesState: BytesState, purgeExecutedReceiptHash: string,
    rest: string)

  datatype StateRow = StateRow(objectId: string, updatedAt: string, rest: string)

  datatype PolicyRow = PolicyRow(
    policyId: string, scope: RowScope, jurisdiction: string, legislation: string, category: string, version: int,
    createdAt: string, rest: string)

  datatype HoldRow = HoldRow(
    holdId: string, objectId: string, scope: RowScope, placedAt: string, liftedAt: string, rest: string)

  datatype RequestRow = RequestRow(
    requestId: string, objectId: string, scope: RowScope, requestedAt: string, approvedAt: string, rest: string)

  datatype ApprovalRow = ApprovalRow(approvalId: string, requestId: string, approvalOrder: int, createdAt: string, rest: string)

  datatype ExecutionRow = ExecutionRow(
    executionId: string, requestId: string, objectId: string, state: ExecutionState, intentAt: string,
    completedAt: string, completionReceiptId: string, rest: string)

  datatype EventRow = EventRow(eventId: string, objectId: string, requestId: string, createdAt: string, rest: string)

  datatype KeyRow = KeyRow(keyId: string, algorithm: string, publicKey: string, createdAt: string, revokedAt: string)

  datatype Rows = Rows(
    objects: seq<ObjectRow>, states: seq<StateRow>, policies: seq<PolicyRow>, holds: seq<HoldRow>,
    requests: seq<RequestRow>, approvals: seq<ApprovalRow>, executions: seq<ExecutionRow>, events: seq<EventRow>,
    receipts: seq<ExportReceipt>, keys: seq<KeyRow>)

  // ----------------------------------------------------------------- sort keys

  function ObjectKey(o: ObjectRow): Key { [S(o.objectId)] }

  function StateKey(r: StateRow): Key { [S(r.objectId)] }

  function PolicyKey(r: PolicyRow): Key {
    [S(r.jurisdiction), S(r.legislation), S(r.category), N(r.version), S(r.policyId)]
  }

  function HoldKey(r: HoldRow): Key { [S(r.objectId), S(r.placedAt), S(r.holdId)] }

  function RequestKey(r: RequestRow): Key { [S(r.objectId), S(r.requestId)] }

  function ApprovalKey(r: ApprovalRow): Key { [S(r.requestId), N(r.approvalOrder), S(r.approvalId)] }

  function ExecutionKey(r: ExecutionRow): Key { [S(r.requestId), S(r.executionId)] }

  function EventKey(r: EventRow): Key { [S(r.objectId), S(r.createdAt), S(r.eventId)] }

  function KeyKey(r: KeyRow): Key { [S(r.keyId)] }

  // ------------------------------------------------------------ canonical order

  /** What canonicalizing a bundle may deliver: every array a sorted permutation, the receipts with their
      ordinals established first. */
  ghost predicate CanonicalRows(r: Rows, c: Rows) {
    && SortedPermutation(r.objects, c.objects, ObjectKey)
    && SortedPermutation(r.states, c.states, StateKey)
    && SortedPermutation(r.policies, c.policies, PolicyKey)
    && SortedPermutation(r.holds, c.holds, HoldKey)
    && SortedPermutation(r.requests, c.requests, RequestKey)
    && SortedPermutation(r.approvals, c.approvals, ApprovalKey)
    && SortedPermutation(r.executions, c.executions, ExecutionKey)
    && SortedPermutation(r.events, c.events, EventKey)
    && CanonicalReceipts(r.receipts, c.receipts)
    && SortedPermutation(r.keys, c.keys, KeyKey)
  }

  /** The same rows in any order. */
  ghost predicate SameRows(a: Rows, b: Rows) {
    && multiset(a.objects) == multiset(b.objects) && multiset(a.states) == multiset(b.states)
    && multiset(a.policies) == multiset(b.policies) && multiset(a.holds) == multiset(b.holds)
    && multiset(a.requests) == multiset(b.requests) && multiset(a.approvals) == multiset(b.approvals)
    && multiset(a.executions) == multiset(b.executions) && multiset(a.events) == multiset(b.events)
    && multiset(a.receipts) == multiset(b.receipts) && multiset(a.keys) == multiset(b.keys)
  }

  /** No two different rows of one array share their order keys. */
  ghost predicate NoTies(r: Rows) {
    && TieFree(r.objects, ObjectKey) && TieFree(r.states, StateKey) && TieFree(r.policies, PolicyKey)
    && TieFree(r.holds, HoldKey) && TieFree(r.requests, RequestKey) && TieFree(r.approvals, ApprovalKey)
    && TieFree(r.executions, ExecutionKey) && TieFree(r.events, EventKey)
    && TieFree(Established(r.receipts), ReceiptKey) && TieFree(r.keys, KeyKey)
  }

  lemma OneOrder<T>(a: seq<T>, b: seq<T>, x: seq<T>, y: seq<T>, key: T -> Key)
    requires multiset(a) == multiset(b) && TieFree(a, key)
    requires SortedPermutation(a, x, key) && SortedPermutation(b, y, key)
    ensures x == y
  {
    forall u, v | u in x && v in x && key(u) == key(v) ensures u == v {
      assert u in multiset(a) && v in multiset(a);
    }
    SortIsDetermined(x, y, key);
  }

  /** Without ties, the same rows canonicalize to the same bundle, whatever order they came in. */
  lemma CanonicalizationIsOrderFree(a: Rows, b: Rows, x: Rows, y: Rows)
    requires SameRows(a, b) && NoTies(a) && CanonicalRows(a, x) && CanonicalRows(b, y)
    ensures x == y
  {
    OneOrder(a.objects, b.objects, x.objects, y.objects, ObjectKey);
    OneOrder(a.states, b.states, x.states, y.states, StateKey);
    OneOrder(a.policies, b.policies, x.policies, y.policies, PolicyKey);
    OneOrder(a.holds, b.holds, x.holds, y.holds, HoldKey);
    OneOrder(a.requests, b.requests, x.requests, y.requests, RequestKey);
    OneOrder(a.approvals, b.approvals, x.approvals, y.approvals, ApprovalKey);
    OneOrder(a.executions, b.executions, x.executions, y.executions, ExecutionKey);
    OneOrder(a.events, b.events, x.events, y.events, EventKey);
    CanonicalReceiptsAreOrderFree(a.receipts, b.receipts, x.receipts, y.receipts);
    OneOrder(a.keys, b.keys, x.keys, y.keys, KeyKey);
  }

  /** Canonicalizing a canonical bundle changes nothing. */
  lemma CanonicalizationIsIdempotent(r: Rows, c: Rows, again: Rows)
    requires NoTies(r) && CanonicalRows(r, c) && CanonicalRows(c, again)
    ensures again == c
  {
    OneOrder(r.objects, c.objects, c.objects, again.objects, ObjectKey);
    OneOrder(r.states, c.states, c.states, again.states, StateKey);
    OneOrder(r.policies, c.policies, c.policies, again.policies, PolicyKey);
    OneOrder(r.holds, c.holds, c.holds, again.holds, HoldKey);
    OneOrder(r.requests, c.requests, c.requests, again.requests, RequestKey);
    OneOrder(r.approvals, c.approvals, c.approvals, again.approvals, ApprovalKey);
    OneOrder(r.executions, c.executions, c.executions, again.executions, ExecutionKey);
    OneOrder(r.events, c.events, c.events, again.events, EventKey);
    CanonicalReceiptsAreStable(r.receipts, c.receipts, again.receipts);
    OneOrder(r.keys, c.keys, c.keys, again.keys, KeyKey);
  }

  /** Canonicalizing twice delivers nothing that canonicalizing once could not. */
  lemma CanonicalizationComposes(r: Rows, c: Rows, d: Rows)
    requires CanonicalRows(r, c) && CanonicalRows(c, d)
    ensures CanonicalRows(r, d)
  {
    CanonicalIsEstablished(r.receipts, c.receipts);
  }

  // -------------------------------------------------------------- as-of instant

  ghost function StampsOf<T(!new)>(rows: seq<T>, stamps: T -> seq<string>): set<string> {
    set r, t | r in rows && t in stamps(r) :: t
  }

  function ObjectStamps(o: ObjectRow): seq<string> { [o.storedAt] }

  function StateStamps(s: StateRow): seq<string> { [s.updatedAt] }

  function PolicyStamps(p: PolicyRow): seq<string> { [p.createdAt] }

  function HoldStamps(h: HoldRow): seq<string> { [h.placedAt, h.liftedAt] }

  function RequestStamps(q: RequestRow): seq<string> { [q.requestedAt, q.approvedAt] }

  function ApprovalStamps(a: ApprovalRow): seq<string> { [a.createdAt] }

  function ExecutionStamps(e: ExecutionRow): seq<string> { [e.intentAt, e.completedAt] }

  function EventStamps(e: EventRow): seq<string> { [e.createdAt] }

  function ReceiptStamps(x: ExportReceipt): seq<string> { [x.receipt.issuedAt] }

  function KeyStamps(k: KeyRow): seq<string> { [k.createdAt] }

  /** Every timestamp that a row of the bundle carries. */
  ghost function Stamps(r: Rows): set<string> {
    StampsOf(r.objects, ObjectStamps) + StampsOf(r.states, StateStamps) + StampsOf(r.policies, PolicyStamps) +
    StampsOf(r.holds, HoldStamps) + StampsOf(r.requests, RequestStamps) + StampsOf(r.approvals, ApprovalStamps) +
    StampsOf(r.executions, ExecutionStamps) + StampsOf(r.events, EventStamps) +
    StampsOf(r.receipts, ReceiptStamps) + StampsOf(r.keys, KeyStamps)
  }

  /** The latest of the timestamps, "" when there are none. */
  predicate IsLatest(t: string, stamps: set<string>) {
    (t == "" || t in stamps) && forall u | u in stamps :: LessEq(u, t)
  }

  lemma SameStamps<T(!new)>(a: seq<T>, b: seq<T>, stamps: T -> seq<string>)
    requires multiset(a) == multiset(b)
    ensures StampsOf(a, stamps) == StampsOf(b, stamps)
  {
    SameMembers(a, b);
  }

  /** The as-of instant is one instant, and the order of the rows does not matter to it. */
  lemma LatestIsOrderFree(a: Rows, b: Rows, t: string, u: string)
    requires SameRows(a, b) && IsLatest(t, Stamps(a)) && IsLatest(u, Stamps(b))
    ensures t == u
  {
    SameStamps(a.objects, b.objects, ObjectStamps);
    SameStamps(a.states, b.states, StateStamps);
    SameStamps(a.policies, b.policies, PolicyStamps);
    SameStamps(a.holds, b.holds, HoldStamps);
    SameStamps(a.requests, b.requests, RequestStamps);
    SameStamps(a.approvals, b.approvals, ApprovalStamps);
    SameStamps(a.executions, b.executions, ExecutionStamps);
    SameStamps(a.events, b.events, EventStamps);
    SameStamps(a.receipts, b.receipts, ReceiptStamps);
    SameStamps(a.keys, b.keys, KeyStamps);
    if t != u && Less(t, u) && Less(u, t) {
      LessAsymmetric(t, u);
    }
  }

  // ------------------------------------------------------------ scope coverage

  /** The requested scope; an empty period asks for every period of the RUC. */
  predicate RowInScope(scope: RowScope, row: RowScope) {
    && row.tenantId == scope.tenantId && row.companyId == scope.companyId && row.ruc == scope.ruc
    && (scope.period == "" || row.period == scope.period)
  }

  /** Tenant-level policies and exact-company ones: every field that is set must match. */
  predicate PolicyInScope(scope: RowScope, p: PolicyRow) {
    && p.scope.tenantId == scope.tenantId
    && (p.scope.companyId != "" ==> p.scope.companyId == scope.companyId)
    && (p.scope.ruc != "" ==> p.scope.ruc == scope.ruc)
    && (p.scope.period != "" && scope.period != "" ==> p.scope.period == scope.period)
  }

  predicate KnownObject(r: Rows, objectId: string) {
    exists o | o in r.objects :: o.objectId == objectId
  }

  predicate KnownRequest(r: Rows, requestId: string) {
    exists q | q in r.requests :: q.requestId == requestId
  }

  predicate ReceiptInScope(r: Rows, scope: RowScope, x: ExportReceipt) {
    && KnownObject(r, SubjectOf(x))
    && x.receipt.tenantId == scope.tenantId && x.receipt.companyId == scope.companyId
    && (scope.period != "" && x.receipt.fiscalPeriodId != "" ==> x.receipt.fiscalPeriodId == scope.period)
  }

  /** No row of the bundle crosses the requested scope, directly or through the row it belongs to. */
  ghost predicate ScopeCovered(r: Rows, scope: RowScope) {
    && (forall o | o in r.objects :: RowInScope(scope, o.scope))
    && (forall q | q in r.requests :: RowInScope(scope, q.scope))
    && (forall h | h in r.holds :: RowInScope(scope, h.scope))
    && (forall p | p in r.policies :: PolicyInScope(scope, p))
    && (forall s | s in r.states :: KnownObject(r, s.objectId))
    && (forall a | a in r.approvals :: KnownRequest(r, a.requestId))
    && (forall e | e in r.executions :: KnownRequest(r, e.requestId))
    && (forall e | e in r.events :: KnownObject(r, e.objectId) && (e.requestId != "" ==> KnownRequest(r, e.requestId)))
    && (forall x | x in r.receipts :: ReceiptInScope(r, scope, x))
  }

  // ------------------------------------------------- scope survives reordering

  lemma SubjectsSurvive(r: Rows, c: Rows, x: ExportReceipt)
    requires CanonicalRows(r, c)
    ensures x in c.receipts ==> exists y | y in r.receipts :: y.receipt == x.receipt
    ensures x in r.receipts ==> exists y | y in c.receipts :: y.receipt == x.receipt
  {
    var once := Established(r.receipts);
    SameMembers(c.receipts, once);
    if x in c.receipts {
      var i :| 0 <= i < |once| && once[i] == x;
      assert r.receipts[i] in r.receipts && r.receipts[i].receipt == x.receipt;
    }
    if x in r.receipts {
      var i :| 0 <= i < |r.receipts| && r.receipts[i] == x;
      assert once[i] in once && once[i].receipt == x.receipt;
      assert once[i] in c.receipts;
    }
  }

  /** Canonicalization neither hides nor creates a row out of scope. */
  lemma ScopeSurvives(r: Rows, c: Rows, scope: RowScope)
    requires CanonicalRows(r, c)
    ensures ScopeCovered(r, scope) <==> ScopeCovered(c, scope)
  {
    SameMembers(r.objects, c.objects);
    SameMembers(r.requests, c.requests);
    SameMembers(r.holds, c.holds);
    SameMembers(r.policies, c.policies);
    SameMembers(r.states, c.states);
    SameMembers(r.approvals, c.approvals);
    SameMembers(r.executions, c.executions);
    SameMembers(r.events, c.events);
    forall id: string ensures KnownObject(r, id) <==> KnownObject(c, id) {
    }
    forall id: string ensures KnownRequest(r, id) <==> KnownRequest(c, id) {
    }
    ReceiptScopeSurvives(r, c, scope);
  }

  lemma ReceiptScopeSurvives(r: Rows, c: Rows, scope: RowScope)
    requires CanonicalRows(r, c)
    requires forall id: string :: KnownObject(r, id) <==> KnownObject(c, id)
    ensures (forall x | x in r.receipts :: ReceiptInScope(r, scope, x)) <==>
            (forall x | x in c.receipts :: ReceiptInScope(c, scope, x))
  {
    forall x: ExportReceipt, y: ExportReceipt | x.receipt == y.receipt
      ensures ReceiptInScope(r, scope, x) <==> ReceiptInScope(c, scope, y)
    {
    }
    if forall x | x in r.receipts :: ReceiptInScope(r, scope, x) {
      forall x | x in c.receipts ensures ReceiptInScope(c, scope, x) {
        SubjectsSurvive(r, c, x);
      }
    }
    if forall x | x in c.receipts :: ReceiptInScope(c, scope, x) {
      forall x | x in r.receipts ensures ReceiptInScope(r, scope, x) {
        SubjectsSurvive(r, c, x);
      }
    }
  }
}
