/** The canonical bundle field by field: in which order the rows of each array stand, which ordinals its receipts carry,
    and which instants count for its as-of instant. */
module ExportOrder {
  import opened Text
  import opened Records
  import opened ExportOrdinals
  import opened Sorting
  import opened ExportReceipts
  import opened ExportRows

  /** The first texts decide; where they are equal, what follows does. */
  predicate First(a: string, b: string, rest: bool) {
    Less(a, b) || (a == b && rest)
  }

  predicate FirstNumber(a: int, b: int, rest: bool) {
    a < b || (a == b && rest)
  }

  lemma TextDecides(a: string, b: string, restA: Key, restB: Key)
    ensures KeyLessEq([S(a)] + restA, [S(b)] + restB) <==> First(a, b, KeyLessEq(restA, restB))
  {
    var x, y := [S(a)] + restA, [S(b)] + restB;
    assert x[1..] == restA && y[1..] == restB && x[0] == S(a) && y[0] == S(b);
    LessIrreflexive(a);
  }

  lemma NumberDecides(a: int, b: int, restA: Key, restB: Key)
    ensures KeyLessEq([N(a)] + restA, [N(b)] + restB) <==> FirstNumber(a, b, KeyLessEq(restA, restB))
  {
    var x, y := [N(a)] + restA, [N(b)] + restB;
    assert x[1..] == restA && y[1..] == restB && x[0] == N(a) && y[0] == N(b);
  }

  lemma OneText(a: string, b: string)
    ensures KeyLessEq([S(a)], [S(b)]) <==> LessEq(a, b)
  {
    TextDecides(a, b, [], []);
    assert [S(a)] + [] == [S(a)] && [S(b)] + [] == [S(b)];
  }

  lemma TwoTexts(a: string, b: string, c: string, d: string)
    ensures KeyLessEq([S(a), S(b)], [S(c), S(d)]) <==> First(a, c, LessEq(b, d))
  {
    OneText(b, d);
    TextDecides(a, c, [S(b)], [S(d)]);
    assert [S(a)] + [S(b)] == [S(a), S(b)] && [S(c)] + [S(d)] == [S(c), S(d)];
  }

  lemma ThreeTexts(a: string, b: string, c: string, d: string, e: string, f: string)
    ensures KeyLessEq([S(a), S(b), S(c)], [S(d), S(e), S(f)]) <==> First(a, d, First(b, e, LessEq(c, f)))
  {
    TwoTexts(b, c, e, f);
    TextDecides(a, d, [S(b), S(c)], [S(e), S(f)]);
    assert [S(a)] + [S(b), S(c)] == [S(a), S(b), S(c)] && [S(d)] + [S(e), S(f)] == [S(d), S(e), S(f)];
  }

  lemma NumberThenText(n: int, a: string, m: int, b: string)
    ensures KeyLessEq([N(n), S(a)], [N(m), S(b)]) <==> FirstNumber(n, m, LessEq(a, b))
  {
    OneText(a, b);
    NumberDecides(n, m, [S(a)], [S(b)]);
    assert [N(n)] + [S(a)] == [N(n), S(a)] && [N(m)] + [S(b)] == [N(m), S(b)];
  }

  lemma TextNumberText(a: string, n: int, b: string, c: string, m: int, d: string)
    ensures KeyLessEq([S(a), N(n), S(b)], [S(c), N(m), S(d)]) <==> First(a, c, FirstNumber(n, m, LessEq(b, d)))
  {
    NumberThenText(n, b, m, d);
    TextDecides(a, c, [N(n), S(b)], [N(m), S(d)]);
    assert [S(a)] + [N(n), S(b)] == [S(a), N(n), S(b)] && [S(c)] + [N(m), S(d)] == [S(c), N(m), S(d)];
  }

  lemma TwoTextsNumberText(a: string, b: string, n: int, c: string, d: string, e: string, m: int, f: string)
    ensures KeyLessEq([S(a), S(b), N(n), S(c)], [S(d), S(e), N(m), S(f)]) <==>
            First(a, d, First(b, e, FirstNumber(n, m, LessEq(c, f))))
  {
    TextNumberText(b, n, c, e, m, f);
    TextDecides(a, d, [S(b), N(n), S(c)], [S(e), N(m), S(f)]);
    assert [S(a)] + [S(b), N(n), S(c)] == [S(a), S(b), N(n), S(c)];
    assert [S(d)] + [S(e), N(m), S(f)] == [S(d), S(e), N(m), S(f)];
  }

  // ------------------------------------------------------------------ orders of rows

  /** Jurisdiction, legislation, category, version, id. */
  predicate PolicyOrder(p: PolicyRow, q: PolicyRow) {
    First(p.jurisdiction, q.jurisdiction,
          First(p.legislation, q.legislation,
                First(p.category, q.category, FirstNumber(p.version, q.version, LessEq(p.policyId, q.policyId)))))
  }

  /** Subject, instant of issue, place in the chain, and the digest at last. */
  predicate ReceiptOrder(x: ExportReceipt, y: ExportReceipt) {
    First(x.receipt.subjectId, y.receipt.subjectId,
          First(x.receipt.issuedAt, y.receipt.issuedAt,
                FirstNumber(x.chainOrdinal, y.chainOrdinal, LessEq(x.receiptHash, y.receiptHash))))
  }

  lemma PolicyKeyOrder(p: PolicyRow, q: PolicyRow)
    ensures KeyLessEq(PolicyKey(p), PolicyKey(q)) <==> PolicyOrder(p, q)
  {
    var restP := [S(p.legislation), S(p.category), N(p.version), S(p.policyId)];
    var restQ := [S(q.legislation), S(q.category), N(q.version), S(q.policyId)];
    TwoTextsNumberText(p.legislation, p.category, p.version, p.policyId, q.legislation, q.category, q.version, q.policyId);
    TextDecides(p.jurisdiction, q.jurisdiction, restP, restQ);
    assert [S(p.jurisdiction)] + restP == PolicyKey(p) && [S(q.jurisdiction)] + restQ == PolicyKey(q);
  }

  lemma ReceiptKeyOrder(x: ExportReceipt, y: ExportReceipt)
    ensures KeyLessEq(ReceiptKey(x), ReceiptKey(y)) <==> ReceiptOrder(x, y)
  {
    TwoTextsNumberText(SubjectOf(x), x.receipt.issuedAt, x.chainOrdinal, x.receiptHash,
                       SubjectOf(y), y.receipt.issuedAt, y.chainOrdinal, y.receiptHash);
  }

  /** Any two rows of an array stand in this order. */
  ghost predicate Stands<T(!new)>(rows: seq<T>, before: (T, T) -> bool) {
    forall i, j | 0 <= i < j < |rows| :: before(rows[i], rows[j])
  }

  lemma SortedStands<T(!new)>(rows: seq<T>, key: T -> Key, before: (T, T) -> bool)
    requires Sorted(rows, key) && forall x, y :: KeyLessEq(key(x), key(y)) ==> before(x, y)
    ensures Stands(rows, before)
  {
  }

  /** The order of every array of a canonical bundle. */
  lemma CanonicalOrder(r: Rows, c: Rows)
    requires CanonicalRows(r, c)
    ensures Stands(c.objects, (a: ObjectRow, b: ObjectRow) => LessEq(a.objectId, b.objectId))
    ensures Stands(c.states, (a: StateRow, b: StateRow) => LessEq(a.objectId, b.objectId))
    ensures Stands(c.policies, PolicyOrder)
    ensures Stands(c.holds, (a: HoldRow, b: HoldRow) =>
                     First(a.objectId, b.objectId, First(a.placedAt, b.placedAt, LessEq(a.holdId, b.holdId))))
    ensures Stands(c.requests, (a: RequestRow, b: RequestRow) => First(a.objectId, b.objectId, LessEq(a.requestId, b.requestId)))
    ensures Stands(c.approvals, (a: ApprovalRow, b: ApprovalRow) =>
                     First(a.requestId, b.requestId, FirstNumber(a.approvalOrder, b.approvalOrder, LessEq(a.approvalId, b.approvalId))))
    ensures Stands(c.executions, (a: ExecutionRow, b: ExecutionRow) => First(a.requestId, b.requestId, LessEq(a.executionId, b.executionId)))
    ensures Stands(c.events, (a: EventRow, b: EventRow) =>
                     First(a.objectId, b.objectId, First(a.createdAt, b.createdAt, LessEq(a.eventId, b.eventId))))
    ensures Stands(c.receipts, ReceiptOrder)
    ensures Stands(c.keys, (a: KeyRow, b: KeyRow) => LessEq(a.keyId, b.keyId))
  {
    hide KeyLessEq, Stands, PolicyOrder, ReceiptOrder, Established, First, FirstNumber, Less;
    OrdersOfIds(r, c);
    OrdersOfEvents(r, c);
    forall p, q ensures KeyLessEq(PolicyKey(p), PolicyKey(q)) ==> PolicyOrder(p, q) { PolicyKeyOrder(p, q); }
    SortedStands(c.policies, PolicyKey, PolicyOrder);
    forall x, y ensures KeyLessEq(ReceiptKey(x), ReceiptKey(y)) ==> ReceiptOrder(x, y) { ReceiptKeyOrder(x, y); }
    SortedStands(c.receipts, ReceiptKey, ReceiptOrder);
    var approvalOrder := (a: ApprovalRow, b: ApprovalRow) =>
      First(a.requestId, b.requestId, FirstNumber(a.approvalOrder, b.approvalOrder, LessEq(a.approvalId, b.approvalId)));
    forall a: ApprovalRow, b: ApprovalRow ensures KeyLessEq(ApprovalKey(a), ApprovalKey(b)) ==> approvalOrder(a, b) {
      TextNumberText(a.requestId, a.approvalOrder, a.approvalId, b.requestId, b.approvalOrder, b.approvalId);
    }
    SortedStands(c.approvals, ApprovalKey, approvalOrder);
  }

  lemma OrdersOfIds(r: Rows, c: Rows)
    requires CanonicalRows(r, c)
    ensures Stands(c.objects, (a: ObjectRow, b: ObjectRow) => LessEq(a.objectId, b.objectId))
    ensures Stands(c.states, (a: StateRow, b: StateRow) => LessEq(a.objectId, b.objectId))
    ensures Stands(c.keys, (a: KeyRow, b: KeyRow) => LessEq(a.keyId, b.keyId))
    ensures Stands(c.requests, (a: RequestRow, b: RequestRow) => First(a.objectId, b.objectId, LessEq(a.requestId, b.requestId)))
    ensures Stands(c.executions, (a: ExecutionRow, b: ExecutionRow) => First(a.requestId, b.requestId, LessEq(a.executionId, b.executionId)))
  {
    hide KeyLessEq, Established, First, Less;
    forall i, j | 0 <= i < j < |c.objects| ensures LessEq(c.objects[i].objectId, c.objects[j].objectId) {
      OneText(c.objects[i].objectId, c.objects[j].objectId);
    }
    forall i, j | 0 <= i < j < |c.states| ensures LessEq(c.states[i].objectId, c.states[j].objectId) {
      OneText(c.states[i].objectId, c.states[j].objectId);
    }
    forall i, j | 0 <= i < j < |c.keys| ensures LessEq(c.keys[i].keyId, c.keys[j].keyId) {
      OneText(c.keys[i].keyId, c.keys[j].keyId);
    }
    forall i, j | 0 <= i < j < |c.requests|
      ensures First(c.requests[i].objectId, c.requests[j].objectId, LessEq(c.requests[i].requestId, c.requests[j].requestId))
    {
      TwoTexts(c.requests[i].objectId, c.requests[i].requestId, c.requests[j].objectId, c.requests[j].requestId);
    }
    forall i, j | 0 <= i < j < |c.executions|
      ensures First(c.executions[i].requestId, c.executions[j].requestId, LessEq(c.executions[i].executionId, c.executions[j].executionId))
    {
      TwoTexts(c.executions[i].requestId, c.executions[i].executionId, c.executions[j].requestId, c.executions[j].executionId);
    }
  }

  lemma OrdersOfEvents(r: Rows, c: Rows)
    requires CanonicalRows(r, c)
    ensures Stands(c.holds, (a: HoldRow, b: HoldRow) =>
                     First(a.objectId, b.objectId, First(a.placedAt, b.placedAt, LessEq(a.holdId, b.holdId))))
    ensures Stands(c.events, (a: EventRow, b: EventRow) =>
                     First(a.objectId, b.objectId, First(a.createdAt, b.createdAt, LessEq(a.eventId, b.eventId))))
  {
    hide KeyLessEq, Established, First, Less;
    forall i, j | 0 <= i < j < |c.holds|
      ensures First(c.holds[i].objectId, c.holds[j].objectId,
                    First(c.holds[i].placedAt, c.holds[j].placedAt, LessEq(c.holds[i].holdId, c.holds[j].holdId)))
    {
      ThreeTexts(c.holds[i].objectId, c.holds[i].placedAt, c.holds[i].holdId, c.holds[j].objectId, c.holds[j].placedAt, c.holds[j].holdId);
    }
    forall i, j | 0 <= i < j < |c.events|
      ensures First(c.events[i].objectId, c.events[j].objectId,
                    First(c.events[i].createdAt, c.events[j].createdAt, LessEq(c.events[i].eventId, c.events[j].eventId)))
    {
      ThreeTexts(c.events[i].objectId, c.events[i].createdAt, c.events[i].eventId,
                 c.events[j].objectId, c.events[j].createdAt, c.events[j].eventId);
    }
  }

  // ------------------------------------------------------------------------ ordinals

  /** The ordinals of a canonical bundle: a subject's complete ordinals stay, incomplete ones become the places of the
      one chain that the links form, and without such a chain they are all zero. */
  lemma OrdinalsAreSettled(rs: seq<ExportReceipt>, i: nat, pos: map<string, nat>)
    requires i < |rs|
    ensures |Established(rs)| == |rs|
    ensures
      var x, g := Established(rs)[i], GroupOf(rs, rs[i].receipt.subjectId);
      && x == rs[i].(chainOrdinal := x.chainOrdinal)
      && (Complete(Provided(g)) ==> x.chainOrdinal == rs[i].chainOrdinal)
      && (!Complete(Provided(g)) && ChainNumbering(g, pos) ==> rs[i].receiptHash in pos && x.chainOrdinal == pos[rs[i].receiptHash])
      && (!Complete(Provided(g)) && !IsChain(g) ==> x.chainOrdinal == 0)
  {
    var subject := rs[i].receipt.subjectId;
    var k := PlaceInGroup(rs, subject, i);
    ResolvedOrdinal(GroupOf(rs, subject), rs[i], k, pos);
  }

  lemma ResolvedOrdinal(g: seq<ExportReceipt>, x: ExportReceipt, k: nat, pos: map<string, nat>)
    requires k < |g| && g[k] == x
    ensures Complete(Provided(g)) ==> Resolved(g, x) == x.chainOrdinal
    ensures !Complete(Provided(g)) && ChainNumbering(g, pos) ==> x.receiptHash in pos && Resolved(g, x) == pos[x.receiptHash]
    ensures !Complete(Provided(g)) && !IsChain(g) ==> Resolved(g, x) == 0
  {
    hide Complete;
    assert x in g;
    if ChainNumbering(g, pos) {
      DerivedUnder(g, pos);
      assert x.receiptHash in Hashes(g);
    }
  }

  // ------------------------------------------------------------------------- instants

  /** The instants of a bundle: every timestamp of every row, and no other text. */
  lemma StampsAre(r: Rows, t: string)
    ensures t in Stamps(r) <==>
            || (exists o | o in r.objects :: t == o.storedAt) || (exists s | s in r.states :: t == s.updatedAt)
            || (exists p | p in r.policies :: t == p.createdAt) || (exists h | h in r.holds :: t == h.placedAt || t == h.liftedAt)
            || (exists q | q in r.requests :: t == q.requestedAt || t == q.approvedAt)
            || (exists a | a in r.approvals :: t == a.createdAt)
            || (exists e | e in r.executions :: t == e.intentAt || t == e.completedAt)
            || (exists e | e in r.events :: t == e.createdAt) || (exists x | x in r.receipts :: t == x.receipt.issuedAt)
            || (exists k | k in r.keys :: t == k.createdAt)
  {
    StampOf(r.objects, ObjectStamps, t);
    StampOf(r.states, StateStamps, t);
    StampOf(r.policies, PolicyStamps, t);
    StampOf(r.holds, HoldStamps, t);
    StampOf(r.requests, RequestStamps, t);
    StampOf(r.approvals, ApprovalStamps, t);
    StampOf(r.executions, ExecutionStamps, t);
    StampOf(r.events, EventStamps, t);
    StampOf(r.receipts, ReceiptStamps, t);
    StampOf(r.keys, KeyStamps, t);
  }

  lemma StampOf<T(!new)>(rows: seq<T>, stamps: T -> seq<string>, t: string)
    requires forall x :: 1 <= |stamps(x)| <= 2
    ensures t in StampsOf(rows, stamps) <==>
            exists x | x in rows :: t == stamps(x)[0] || (|stamps(x)| == 2 && t == stamps(x)[1])
  {
    forall x ensures t in stamps(x) <==> t == stamps(x)[0] || (|stamps(x)| == 2 && t == stamps(x)[1]) {
    }
    if t in StampsOf(rows, stamps) {
      var x :| x in rows && t in stamps(x);
    }
  }
}
