/** The hash chains of a bundle that passed its audit. */
module ExportChains {
  import opened Text
  import opened Records
  import opened Verification
  import opened ExportOrdinals
  import opened Sorting
  import opened ExportReceipts
  import opened ExportRows
  import opened ExportBundle
  import opened ExportAudit

  /** A subject's receipts in array order. */
  function ChainOfSubject(xs: seq<ExportReceipt>, subject: string): seq<SignedReceipt> {
    var idx := Indices(xs, subject);
    seq(|idx|, k requires 0 <= k < |idx| => xs[idx[k]].receipt)
  }

  lemma SubjectOrder(x: ExportReceipt, y: ExportReceipt)
    requires KeyLessEq(ReceiptKey(x), ReceiptKey(y))
    ensures LessEq(SubjectOf(x), SubjectOf(y))
  {
    assert ReceiptKey(x)[0] == S(SubjectOf(x)) && ReceiptKey(y)[0] == S(SubjectOf(y));
  }

  /** A subject's receipt that comes after index k - 1 does not come before index k. */
  lemma IndicesLeaveNoGap(xs: seq<ExportReceipt>, subject: string, k: nat, i: nat)
    requires k < |Indices(xs, subject)| && i < |xs| && SubjectOf(xs[i]) == subject
    requires k > 0 ==> Indices(xs, subject)[k - 1] < i
    ensures Indices(xs, subject)[k] <= i
  {
    IndicesAreExact(xs, subject);
    var idx := Indices(xs, subject);
    assert i in idx;
    var l :| 0 <= l < |idx| && idx[l] == i;
  }

  lemma IndexHasSubject(xs: seq<ExportReceipt>, subject: string, k: nat)
    requires k < |Indices(xs, subject)|
    ensures SubjectOf(xs[Indices(xs, subject)[k]]) == subject
    ensures k > 0 ==> Indices(xs, subject)[k - 1] < Indices(xs, subject)[k]
  {
    IndicesAreExact(xs, subject);
    assert Indices(xs, subject)[k] in Indices(xs, subject);
  }

  /** In a sorted array a subject's receipts stand side by side. */
  lemma SubjectsAreContiguous(xs: seq<ExportReceipt>, subject: string, k: nat)
    requires Sorted(xs, ReceiptKey) && 0 < k < |Indices(xs, subject)|
    ensures Indices(xs, subject)[k] == Indices(xs, subject)[k - 1] + 1
  {
    var i, j := Indices(xs, subject)[k - 1], Indices(xs, subject)[k];
    IndexHasSubject(xs, subject, k - 1);
    IndexHasSubject(xs, subject, k);
    if i + 1 < j {
      SubjectOrder(xs[i], xs[i + 1]);
      SubjectOrder(xs[i + 1], xs[j]);
      if SubjectOf(xs[i + 1]) != subject {
        LessAsymmetric(SubjectOf(xs[i + 1]), subject);
      }
      IndicesLeaveNoGap(xs, subject, k, i + 1);
    }
  }

  lemma FirstHasNoPredecessor(xs: seq<ExportReceipt>, subject: string)
    requires 0 < |Indices(xs, subject)|
    ensures !Follows(xs, Indices(xs, subject)[0])
  {
    IndexHasSubject(xs, subject, 0);
    if Follows(xs, Indices(xs, subject)[0]) {
      IndicesLeaveNoGap(xs, subject, 0, Indices(xs, subject)[0] - 1);
    }
  }

  lemma LinkOfClean(x: Checkers, r: Rows, subject: string, k: nat)
    requires Sorted(r.receipts, ReceiptKey) && k < |Indices(r.receipts, subject)|
    requires forall i | 0 <= i < |r.receipts| :: AllPassed(LayersAt(x, r, i))
    ensures LinkPasses(x, ChainOfSubject(r.receipts, subject), k)
  {
    var xs, idx := r.receipts, Indices(r.receipts, subject);
    IndexHasSubject(xs, subject, k);
    assert LayersAt(x, r, idx[k])[5].status == Passed;
    if k == 0 {
      FirstHasNoPredecessor(xs, subject);
    } else {
      SubjectsAreContiguous(xs, subject, k);
      IndexHasSubject(xs, subject, k - 1);
    }
  }

  /** In a clean bundle each subject's receipts form one hash chain from an empty predecessor. */
  lemma CleanChainsPass(x: Checkers, f: Formats, m: Manifest, given: Rows, r: Rows, subject: string)
    requires CanonicalRows(given, r) && AuditClean(x, f, m, r)
    ensures ChainPasses(x, ChainOfSubject(r.receipts, subject))
    ensures ChainOfSubject(r.receipts, subject) != [] ==> ChainOfSubject(r.receipts, subject)[0].previousReceiptHash == ""
  {
    var chain := ChainOfSubject(r.receipts, subject);
    forall k | 0 <= k < |chain| ensures LinkPasses(x, chain, k) {
      LinkOfClean(x, r, subject, k);
    }
    if chain != [] {
      assert LinkPasses(x, chain, 0);
    }
  }

  /** Two clean bundles whose chains of a subject end in the same digest hold the same chain, or show two
      receipts that collide. */
  lemma HeadsFixTheChain(x: Checkers, f: Formats, m: Manifest, given: Rows, r: Rows,
                         m2: Manifest, given2: Rows, r2: Rows, subject: string)
    requires NonEmptyDigests(x)
    requires CanonicalRows(given, r) && AuditClean(x, f, m, r) && CanonicalRows(given2, r2) && AuditClean(x, f, m2, r2)
    requires ChainOfSubject(r.receipts, subject) != [] && ChainOfSubject(r2.receipts, subject) != []
    requires
      var a, b := ChainOfSubject(r.receipts, subject), ChainOfSubject(r2.receipts, subject);
      x.receiptHash(a[|a| - 1]) == x.receiptHash(b[|b| - 1])
    ensures
      var a, b := ChainOfSubject(r.receipts, subject), ChainOfSubject(r2.receipts, subject);
      a == b || Collide(x, a, b)
  {
    CleanChainsPass(x, f, m, given, r, subject);
    CleanChainsPass(x, f, m2, given2, r2, subject);
    HeadDeterminesChain(x, ChainOfSubject(r.receipts, subject), ChainOfSubject(r2.receipts, subject));
  }

  /** In a clean bundle nothing is taken on trust: every stored digest and payload digest is the computed one,
      every signature verifies under an exported key, and every receipt is in the scope of its object. */
  lemma CleanReceiptsAreProven(x: Checkers, f: Formats, m: Manifest, r: Rows, i: nat)
    requires AuditClean(x, f, m, r) && i < |r.receipts|
    ensures
      var e := r.receipts[i];
      var key, scope, payload := KeyOf(r.keys, e.receipt.keyId), ScopeOfObject(r.objects, SubjectOf(e)), x.decodePayload(e.payloadJson);
      && e.receiptHash == x.receiptHash(e.receipt)
      && payload.Some? && e.payloadJson == x.canonicalPayload(payload.value) && e.receipt.payloadHash == x.payloadHash(payload.value)
      && SameEnvelope(e.receipt, payload.value)
      && key.Some? && WindowCovers(x, SigningKeyOf(key), e.receipt.issuedAt)
      && (exists raw, signature ::
            x.decodeKey(key.value.publicKey) == Some(raw) && x.keyId(raw) == e.receipt.keyId &&
            x.decodeSignature(e.receipt.signature) == Some(signature) && x.verifies(raw, e.receipt.(signature := ""), signature))
      && scope == Some(SubjectScope(e.receipt.tenantId, e.receipt.companyId, e.receipt.fiscalPeriodId))
  {
    var e := r.receipts[i];
    var layers := LayersAt(x, r, i);
    assert layers[0].status == Passed && layers[1].status == Passed && layers[2].status == Passed;
    assert layers[3].status == Passed && layers[4].status == Passed;
    var key := KeyOf(r.keys, e.receipt.keyId);
    if key.Some? {
      assert x.decodeKey(key.value.publicKey).Some?;
      assert x.decodeSignature(e.receipt.signature).Some?;
    }
  }
}
