/** What a passed report means, in the fields of the exported rows: when a receipt, a byte state and a whole bundle
    pass, and the order in which the rows stand. */
module ExportMeaning {
  import opened Text
  import opened Records
  import opened Verification
  import opened ExportOrdinals
  import opened Sorting
  import opened ExportReceipts
  import opened ExportRows
  import opened ExportBundle
  import opened ExportVerify
  import opened ExportAudit
  import opened ExportChains

  // ------------------------------------------------------------------------- keys

  /** The last exported key of an id. */
  ghost predicate ExportedKey(r: Rows, keyId: string, k: KeyRow) {
    exists i :: 0 <= i < |r.keys| && r.keys[i] == k && k.keyId == keyId && forall j | i < j < |r.keys| :: r.keys[j].keyId != keyId
  }

  lemma {:induction false} KeyIsExported(ks: seq<KeyRow>, keyId: string)
    ensures
      match KeyOf(ks, keyId)
      case None => forall i | 0 <= i < |ks| :: ks[i].keyId != keyId
      case Some(k) => exists i :: 0 <= i < |ks| && ks[i] == k && k.keyId == keyId && forall j | i < j < |ks| :: ks[j].keyId != keyId
  {
    if ks != [] {
      var before := ks[..|ks| - 1];
      KeyIsExported(before, keyId);
      if ks[|ks| - 1].keyId != keyId && KeyOf(before, keyId).Some? {
        var i :| 0 <= i < |before| && before[i] == KeyOf(before, keyId).value && forall j | i < j < |before| :: before[j].keyId != keyId;
        assert ks[i] == before[i] && forall j | i < j < |ks| - 1 :: ks[j] == before[j];
      } else if ks[|ks| - 1].keyId == keyId {
        assert ks[|ks| - 1] == KeyOf(ks, keyId).value;
      }
    }
  }

  /** The key may sign at this instant: created by then, and not revoked yet if it ever is. */
  predicate MaySign(x: Checkers, k: KeyRow, issuedAt: string) {
    && x.instant(issuedAt).Some? && x.instant(k.createdAt).Some?
    && x.instant(k.createdAt).value <= x.instant(issuedAt).value
    && (k.revokedAt != "" ==> x.instant(k.revokedAt).Some? && x.instant(issuedAt).value < x.instant(k.revokedAt).value)
  }

  /** The signing-key layer, exactly: the receipt names an exported Ed25519 key whose bytes have that id, and was issued
      while the key could sign. */
  lemma SigningKeyLayerIff(x: Checkers, key: Option<KeyRow>, r: SignedReceipt)
    ensures VerifySigningKeyValidity(x, SigningKeyOf(key), r).status == Passed <==>
            key.Some? && key.value.algorithm == "Ed25519" && MaySign(x, key.value, r.issuedAt) &&
            x.decodeKey(key.value.publicKey).Some? && x.keyId(x.decodeKey(key.value.publicKey).value) == r.keyId
    ensures VerifySigningKeyValidity(x, SigningKeyOf(key), r).status != Skipped
  {
  }

  // --------------------------------------------------------------------- receipts

  /** What envelope and payload say alike. */
  predicate Alike(r: SignedReceipt, payload: ReceiptPayload) {
    && r.subjectType == payload.subjectType && r.subjectId == payload.subjectId && r.action == payload.action
    && r.tenantId == payload.tenantId && r.companyId == payload.companyId && r.fiscalPeriodId == payload.fiscalPeriodId
    && r.principalId == payload.principalId && r.membershipId == payload.membershipId
    && r.policyVersion == payload.policyVersion && r.issuedAt == payload.issuedAt
  }

  /** The receipt is what its payload and its digest say it is. */
  predicate BytesProven(x: Checkers, e: ExportReceipt) {
    var r := e.receipt;
    && x.decodePayload(e.payloadJson).Some?
    && (var payload := x.decodePayload(e.payloadJson).value;
        e.payloadJson == x.canonicalPayload(payload) && r.payloadHash == x.payloadHash(payload) && Alike(r, payload))
    && e.receiptHash == x.receiptHash(r) && r.algorithm == "Ed25519"
    && r.subjectType in {"memory", "judgment", "reconciliation", "evidence_object"} && r.action in RECEIPT_ACTIONS
  }

  /** The receipt was signed by this key while it could sign. */
  predicate SignedBy(x: Checkers, k: KeyRow, r: SignedReceipt) {
    && k.keyId == r.keyId && k.algorithm == "Ed25519" && MaySign(x, k, r.issuedAt)
    && x.decodeKey(k.publicKey).Some? && x.decodeSignature(r.signature).Some?
    && (var raw := x.decodeKey(k.publicKey).value;
        x.keyId(raw) == r.keyId && x.verifies(raw, r.(signature := ""), x.decodeSignature(r.signature).value))
  }

  /** The receipt follows the one before it in its subject's chain. */
  predicate Chained(x: Checkers, xs: seq<ExportReceipt>, i: nat)
    requires i < |xs|
  {
    xs[i].receipt.previousReceiptHash ==
    if i > 0 && xs[i - 1].receipt.subjectId == xs[i].receipt.subjectId then x.receiptHash(xs[i - 1].receipt) else ""
  }

  /** The last exported object of an id. */
  lemma {:induction false} ScopeIsExported(os: seq<ObjectRow>, objectId: string)
    ensures
      match ScopeOfObject(os, objectId)
      case None => forall i | 0 <= i < |os| :: os[i].objectId != objectId
      case Some(scope) =>
        exists i :: 0 <= i < |os| && os[i].objectId == objectId &&
                    scope == SubjectScope(os[i].scope.tenantId, os[i].scope.companyId, os[i].scope.period) &&
                    forall j | i < j < |os| :: os[j].objectId != objectId
  {
    if os != [] {
      var before := os[..|os| - 1];
      ScopeIsExported(before, objectId);
      if os[|os| - 1].objectId != objectId && ScopeOfObject(before, objectId).Some? {
        var i :| 0 <= i < |before| && before[i].objectId == objectId &&
                 ScopeOfObject(before, objectId).value ==
                 SubjectScope(before[i].scope.tenantId, before[i].scope.companyId, before[i].scope.period) &&
                 forall j | i < j < |before| :: before[j].objectId != objectId;
        assert os[i] == before[i] && forall j | i < j < |os| - 1 :: os[j] == before[j];
      } else if os[|os| - 1].objectId == objectId {
        assert os[|os| - 1].objectId == objectId;
      }
    }
  }

  /** The receipt stays in the scope of the object it is about. */
  ghost predicate InObjectScope(r: Rows, receipt: SignedReceipt) {
    exists i ::
      && 0 <= i < |r.objects| && r.objects[i].objectId == receipt.subjectId
      && (forall j | i < j < |r.objects| :: r.objects[j].objectId != receipt.subjectId)
      && receipt.tenantId == r.objects[i].scope.tenantId && receipt.companyId == r.objects[i].scope.companyId
      && receipt.fiscalPeriodId == r.objects[i].scope.period
  }

  /** Everything that the six layers ask of receipt i. */
  ghost predicate ReceiptProven(x: Checkers, r: Rows, i: nat)
    requires i < |r.receipts|
  {
    var e := r.receipts[i];
    && BytesProven(x, e) && Chained(x, r.receipts, i) && InObjectScope(r, e.receipt)
    && exists k :: ExportedKey(r, e.receipt.keyId, k) && SignedBy(x, k, e.receipt)
  }

  lemma KeyLayerPasses(x: Checkers, r: Rows, i: nat)
    requires i < |r.receipts|
    ensures
      var e, layers := r.receipts[i], LayersAt(x, r, i);
      layers[2].status == Passed && layers[3].status == Passed <==>
      exists k :: ExportedKey(r, e.receipt.keyId, k) && SignedBy(x, k, e.receipt)
  {
    var e := r.receipts[i];
    var key := KeyOf(r.keys, e.receipt.keyId);
    KeyIsExported(r.keys, e.receipt.keyId);
    SigningKeyLayerIff(x, key, e.receipt);
    if key.Some? {
      assert ExportedKey(r, e.receipt.keyId, key.value);
    }
    forall k | ExportedKey(r, e.receipt.keyId, k) ensures key == Some(k) {
    }
  }

  lemma ScopeLayerPasses(x: Checkers, r: Rows, i: nat)
    requires i < |r.receipts| && BytesProven(x, r.receipts[i])
    ensures LayersAt(x, r, i)[4].status == Passed <==> InObjectScope(r, r.receipts[i].receipt)
  {
    ScopeIsExported(r.objects, SubjectOf(r.receipts[i]));
  }

  lemma BytesLayersPass(x: Checkers, r: Rows, i: nat)
    requires i < |r.receipts|
    ensures LayersAt(x, r, i)[0].status == Passed && LayersAt(x, r, i)[1].status == Passed <==> BytesProven(x, r.receipts[i])
  {
  }

  lemma ChainLayerPasses(x: Checkers, r: Rows, i: nat)
    requires i < |r.receipts|
    ensures LayersAt(x, r, i)[5].status == Passed <==> Chained(x, r.receipts, i)
  {
  }

  /** A receipt passes its six layers exactly when it is proven. */
  lemma ReceiptPassesIff(x: Checkers, r: Rows, i: nat)
    requires i < |r.receipts|
    ensures AllPassed(LayersAt(x, r, i)) <==> ReceiptProven(x, r, i)
  {
    hide LayersAt, BytesProven, Chained, InObjectScope, SignedBy, ExportedKey;
    var layers := LayersAt(x, r, i);
    SixLayers(x, r, i);
    BytesLayersPass(x, r, i);
    KeyLayerPasses(x, r, i);
    ChainLayerPasses(x, r, i);
    if BytesProven(x, r.receipts[i]) {
      ScopeLayerPasses(x, r, i);
    }
    assert AllPassed(layers) <==>
           layers[0].status == Passed && layers[1].status == Passed && layers[2].status == Passed &&
           layers[3].status == Passed && layers[4].status == Passed && layers[5].status == Passed;
  }

  lemma SixLayers(x: Checkers, r: Rows, i: nat)
    requires i < |r.receipts|
    ensures |LayersAt(x, r, i)| == 6
  {
    assert |RECEIPT_LAYERS| == 6;
  }

  // ------------------------------------------------------------------ byte states

  /** Execution k is the first completed one of the object. */
  predicate CompletesFirst(es: seq<ExecutionRow>, objectId: string, k: int) {
    && 0 <= k < |es| && es[k].objectId == objectId && es[k].state == ExecutionCompleted
    && forall l | 0 <= l < k && es[l].objectId == objectId :: es[l].state != ExecutionCompleted
  }

  /** The completion receipt of a purge is exported: about the object, for the executed purge. */
  ghost predicate PurgeReceipted(r: Rows, objectId: string, hash: string) {
    exists j ::
      && 0 <= j < |r.receipts| && r.receipts[j].receiptHash == hash
      && (forall l | j < l < |r.receipts| :: r.receipts[l].receiptHash != hash)
      && r.receipts[j].receipt.subjectId == objectId && r.receipts[j].receipt.action == "purge_executed"
  }

  /** The claimed byte state is what the exported executions and receipts show. */
  ghost predicate BytesShown(r: Rows, o: ObjectRow) {
    match o.bytesState
    case BytesStored => o.purgeExecutedReceiptHash == "" && forall e | e in r.executions :: e.objectId != o.objectId
    case BytesPurged =>
      && (o.purgeExecutedReceiptHash != "" ==> PurgeReceipted(r, o.objectId, o.purgeExecutedReceiptHash))
      && exists k :: CompletesFirst(r.executions, o.objectId, k) && o.purgeExecutedReceiptHash == r.executions[k].completionReceiptId
    case BytesIntended =>
      && o.purgeExecutedReceiptHash == ""
      && (forall e | e in r.executions && e.objectId == o.objectId :: e.state != ExecutionCompleted)
      && (exists e | e in r.executions :: e.objectId == o.objectId && (e.state == ExecutionIntent || e.state == ExecutionInterrupted))
    case BytesUnknown(_) => false
  }

  lemma {:induction false} ExecutionsAreThose(es: seq<ExecutionRow>, objectId: string)
    ensures forall e :: e in ExecutionsOf(es, objectId) <==> e in es && e.objectId == objectId
  {
    if es != [] {
      ExecutionsAreThose(es[..|es| - 1], objectId);
      assert es == es[..|es| - 1] + [es[|es| - 1]];
    }
  }

  lemma {:induction false} FirstIsExported(es: seq<ExecutionRow>, objectId: string, k: nat) returns (i: nat)
    requires FirstCompleted(ExecutionsOf(es, objectId), k)
    ensures CompletesFirst(es, objectId, i) && es[i] == ExecutionsOf(es, objectId)[k]
  {
    var before := es[..|es| - 1];
    var earlier := ExecutionsOf(before, objectId);
    assert forall l | 0 <= l < |earlier| :: ExecutionsOf(es, objectId)[l] == earlier[l];
    if k < |earlier| {
      i := FirstIsExported(before, objectId, k);
      assert forall l | 0 <= l < i :: es[l] == before[l];
    } else {
      i := |es| - 1;
      forall l | 0 <= l < i && es[l].objectId == objectId ensures es[l].state != ExecutionCompleted {
        assert es[l] == before[l] && before[l] in before;
        ExecutionsAreThose(before, objectId);
        var m :| 0 <= m < |earlier| && earlier[m] == es[l];
      }
    }
  }

  lemma {:induction false} ExportedIsFirst(es: seq<ExecutionRow>, objectId: string, i: nat) returns (k: nat)
    requires CompletesFirst(es, objectId, i)
    ensures FirstCompleted(ExecutionsOf(es, objectId), k) && es[i] == ExecutionsOf(es, objectId)[k]
  {
    var before := es[..|es| - 1];
    var earlier := ExecutionsOf(before, objectId);
    if i < |before| {
      assert before[i] == es[i] && forall l | 0 <= l < i :: es[l] == before[l];
      k := ExportedIsFirst(before, objectId, i);
    } else {
      k := |earlier|;
      forall l | 0 <= l < k ensures earlier[l].state != ExecutionCompleted {
        ExecutionsAreThose(before, objectId);
        assert earlier[l] in before;
        var m :| 0 <= m < |before| && before[m] == earlier[l];
        assert es[m] == before[m];
      }
    }
  }

  lemma {:induction false} ReceiptIsExported(xs: seq<ExportReceipt>, hash: string)
    ensures
      match ReceiptByHash(xs, hash)
      case None => forall j | 0 <= j < |xs| :: xs[j].receiptHash != hash
      case Some(e) => exists j :: 0 <= j < |xs| && xs[j] == e && e.receiptHash == hash && forall l | j < l < |xs| :: xs[l].receiptHash != hash
  {
    if xs != [] {
      var before := xs[..|xs| - 1];
      ReceiptIsExported(before, hash);
      if xs[|xs| - 1].receiptHash != hash && ReceiptByHash(before, hash).Some? {
        var j :| 0 <= j < |before| && before[j] == ReceiptByHash(before, hash).value &&
                 forall l | j < l < |before| :: before[l].receiptHash != hash;
        assert xs[j] == before[j] && forall l | j < l < |xs| - 1 :: xs[l] == before[l];
      } else if xs[|xs| - 1].receiptHash == hash {
        assert xs[|xs| - 1] == ReceiptByHash(xs, hash).value;
      }
    }
  }

  lemma CompletionIff(r: Rows, objectId: string, hash: string)
    ensures CompletionExported(r, objectId, hash) <==> PurgeReceipted(r, objectId, hash)
  {
    ReceiptIsExported(r.receipts, hash);
  }

  lemma PurgedIff(r: Rows, o: ObjectRow)
    requires o.bytesState == BytesPurged
    ensures ByteStateConsistent(r, o) <==> BytesShown(r, o)
  {
    hide CompletionExported, PurgeReceipted;
    var es := ExecutionsOf(r.executions, o.objectId);
    CompletionIff(r, o.objectId, o.purgeExecutedReceiptHash);
    if ByteStateConsistent(r, o) {
      var k: nat :| FirstCompleted(es, k) && o.purgeExecutedReceiptHash == es[k].completionReceiptId;
      var i := FirstIsExported(r.executions, o.objectId, k);
    }
    if BytesShown(r, o) {
      var i :| CompletesFirst(r.executions, o.objectId, i) && o.purgeExecutedReceiptHash == r.executions[i].completionReceiptId;
      var k := ExportedIsFirst(r.executions, o.objectId, i);
    }
  }

  /** A byte state passes exactly when the exported executions and receipts show it. */
  lemma ByteStateIff(r: Rows, o: ObjectRow)
    ensures ByteStateConsistent(r, o) <==> BytesShown(r, o)
  {
    ExecutionsAreThose(r.executions, o.objectId);
    var es := ExecutionsOf(r.executions, o.objectId);
    assert es != [] ==> es[0] in es;
    if o.bytesState == BytesPurged {
      PurgedIff(r, o);
    }
  }

  // -------------------------------------------------------------------- structure

  /** The row belongs to the exported company, and to the exported period if there is one. */
  predicate Belongs(scope: RowScope, tenantId: string, companyId: string, ruc: string, period: string) {
    tenantId == scope.tenantId && companyId == scope.companyId && ruc == scope.ruc && (scope.period != "" ==> period == scope.period)
  }

  /** What the structure of a bundle amounts to: versions, digests and counts recomputed, and every row of the exported
      scope, directly or through an exported object or request. */
  ghost predicate StructureShown(f: Formats, m: Manifest, r: Rows) {
    && m.version == "evidence-export/v0.8.0" && m.exportId == "evidence-export/v0.8.0:" + m.contentManifestHash
    && m.contentManifestHash == f.content(r) && m.bundleHash == f.envelope(CoreOf(m))
    && m.counts == Counts(|r.objects|, |r.states|, |r.policies|, |r.holds|, |r.requests|, |r.approvals|, |r.executions|,
                          |r.events|, |r.receipts|, |r.keys|)
    && m.companyScope && m.scope.tenantId != "" && m.scope.companyId != "" && f.validRuc(m.scope.ruc)
    && m.criteriaCompany && !Blank(m.criteria.tenantId) && !Blank(m.criteria.companyId) && f.validRuc(m.criteria.ruc)
    && (m.criteria.period != "" ==> f.validPeriod(m.criteria.period))
    && (forall o | o in r.objects ::
          && Belongs(m.scope, o.scope.tenantId, o.scope.companyId, o.scope.ruc, o.scope.period) && f.validObject(o)
          && !o.bytesState.BytesUnknown?
          && (o.purgeExecutedReceiptHash != "" ==> o.bytesState == BytesPurged && f.hash64(o.purgeExecutedReceiptHash)))
    && (forall q | q in r.requests :: Belongs(m.scope, q.scope.tenantId, q.scope.companyId, q.scope.ruc, q.scope.period))
    && (forall h | h in r.holds :: Belongs(m.scope, h.scope.tenantId, h.scope.companyId, h.scope.ruc, h.scope.period))
    && (forall p | p in r.policies ::
          && p.scope.tenantId == m.scope.tenantId && p.scope.companyId in {"", m.scope.companyId} && p.scope.ruc in {"", m.scope.ruc}
          && (m.scope.period != "" ==> p.scope.period in {"", m.scope.period}))
    && (forall s | s in r.states :: exists o | o in r.objects :: o.objectId == s.objectId)
    && (forall a | a in r.approvals :: exists q | q in r.requests :: q.requestId == a.requestId)
    && (forall e | e in r.executions :: exists q | q in r.requests :: q.requestId == e.requestId)
    && (forall e | e in r.events :: exists o | o in r.objects :: o.objectId == e.objectId)
    && (forall e | e in r.events && e.requestId != "" :: exists q | q in r.requests :: q.requestId == e.requestId)
    && (forall x | x in r.receipts ::
          && (exists o | o in r.objects :: o.objectId == x.receipt.subjectId)
          && x.receipt.tenantId == m.scope.tenantId && x.receipt.companyId == m.scope.companyId
          && (m.scope.period != "" ==> x.receipt.fiscalPeriodId in {"", m.scope.period})
          && (x.receipt.keyId != "" ==> exists k | k in r.keys :: k.keyId == x.receipt.keyId))
  }

  lemma StructureIff(f: Formats, m: Manifest, r: Rows)
    ensures Structural(f, m, r) <==> StructureShown(f, m, r)
  {
    hide Blank;
    assert "evidence-export/v0.8.0" + ":" == "evidence-export/v0.8.0:";
    assert EXPORT_MODEL_VERSION + ":" + m.contentManifestHash == "evidence-export/v0.8.0:" + m.contentManifestHash;
  }

  // ------------------------------------------------------------------ whole bundles

  /** A bundle is clean exactly when its structure holds, every byte state is shown and every receipt is proven. */
  lemma CleanIff(x: Checkers, f: Formats, m: Manifest, r: Rows)
    ensures AuditClean(x, f, m, r) <==>
            && StructureShown(f, m, r) && (forall o | o in r.objects :: BytesShown(r, o))
            && (forall i | 0 <= i < |r.receipts| :: ReceiptProven(x, r, i))
  {
    hide Structural, StructureShown, ByteStateConsistent, BytesShown, AllPassed, LayersAt, ReceiptProven;
    StructureIff(f, m, r);
    forall o ensures ByteStateConsistent(r, o) <==> BytesShown(r, o) {
      ByteStateIff(r, o);
    }
    forall i: nat | i < |r.receipts| ensures AllPassed(LayersAt(x, r, i)) <==> ReceiptProven(x, r, i) {
      ReceiptPassesIff(x, r, i);
    }
  }

  /** In a clean bundle every receipt was issued while its exported key could sign: from its creation on, and before its
      revocation if it was revoked. */
  lemma KeysCoverReceipts(x: Checkers, f: Formats, m: Manifest, r: Rows, i: nat) returns (k: KeyRow)
    requires AuditClean(x, f, m, r) && i < |r.receipts|
    ensures k in r.keys && k.keyId == r.receipts[i].receipt.keyId && k.algorithm == "Ed25519"
    ensures
      var issued, created := x.instant(r.receipts[i].receipt.issuedAt), x.instant(k.createdAt);
      && issued.Some? && created.Some? && created.value <= issued.value
      && (k.revokedAt != "" ==> x.instant(k.revokedAt).Some? && issued.value < x.instant(k.revokedAt).value)
  {
    hide BytesProven, Chained, InObjectScope;
    ReceiptPassesIff(x, r, i);
    k :| ExportedKey(r, r.receipts[i].receipt.keyId, k) && SignedBy(x, k, r.receipts[i].receipt);
  }

  /** A bundle with a receipt that was issued at or after the revocation of its key never passes, and neither does one
      with a receipt from before its key's creation. */
  lemma RevokedKeysNeverPass(x: Checkers, f: Formats, m: Manifest, r: Rows, i: nat, k: KeyRow)
    requires i < |r.receipts| && ExportedKey(r, r.receipts[i].receipt.keyId, k)
    requires
      var issued := x.instant(r.receipts[i].receipt.issuedAt);
      issued.Some? ==>
        || (k.revokedAt != "" && x.instant(k.revokedAt).Some? && issued.value >= x.instant(k.revokedAt).value)
        || (x.instant(k.createdAt).Some? && issued.value < x.instant(k.createdAt).value)
    ensures !AuditClean(x, f, m, r)
    ensures VerifySigningKeyValidity(x, SigningKeyOf(KeyOf(r.keys, r.receipts[i].receipt.keyId)), r.receipts[i].receipt).status == Failed
  {
    KeyIsExported(r.keys, r.receipts[i].receipt.keyId);
    SigningKeyLayerIff(x, KeyOf(r.keys, r.receipts[i].receipt.keyId), r.receipts[i].receipt);
    assert LayersAt(x, r, i)[3].status == Failed;
    assert AuditClean(x, f, m, r) ==> AllPassed(LayersAt(x, r, i));
  }
}
