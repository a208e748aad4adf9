/** The offline audit of a bundle: the verifier as the exporter's counterpart runs it, and what a passed
    report means. */
module ExportAudit {
  import opened Text
  import opened Records
  import opened Verification
  import opened ExportOrdinals
  import opened Sorting
  import opened ExportReceipts
  import opened ExportRows
  import opened ExportBundle
  import opened ExportVerify

  // --------------------------------------------------------------- byte states

  /** The last exported receipt under a digest. */
  function ReceiptByHash(xs: seq<ExportReceipt>, hash: string): Option<ExportReceipt> {
    if xs == [] then None
    else if xs[|xs| - 1].receiptHash == hash then Some(xs[|xs| - 1])
    else ReceiptByHash(xs[..|xs| - 1], hash)
  }

  /** The executions of one object, in array order. */
  function ExecutionsOf(es: seq<ExecutionRow>, objectId: string): seq<ExecutionRow> {
    if es == [] then []
    else
      var earlier := ExecutionsOf(es[..|es| - 1], objectId);
      if es[|es| - 1].objectId == objectId then earlier + [es[|es| - 1]] else earlier
  }

  /** Execution k is the first completed one. */
  predicate FirstCompleted(es: seq<ExecutionRow>, k: nat) {
    k < |es| && es[k].state == ExecutionCompleted && forall l | 0 <= l < k :: es[l].state != ExecutionCompleted
  }

  /** A completion receipt is exported, is about the object and records the executed purge. */
  predicate CompletionExported(r: Rows, objectId: string, hash: string) {
    var found := ReceiptByHash(r.receipts, hash);
    found.Some? && found.value.receipt.subjectId == objectId && found.value.receipt.action == PURGE_EXECUTED
  }

  /** The claimed byte state agrees with the execution ledger of the bundle. */
  ghost predicate ByteStateConsistent(r: Rows, o: ObjectRow) {
    var es := ExecutionsOf(r.executions, o.objectId);
    match o.bytesState
    case BytesStored => es == [] && o.purgeExecutedReceiptHash == ""
    case BytesPurged =>
      exists k: nat ::
        && FirstCompleted(es, k) && o.purgeExecutedReceiptHash == es[k].completionReceiptId
        && (o.purgeExecutedReceiptHash != "" ==> CompletionExported(r, o.objectId, o.purgeExecutedReceiptHash))
    case BytesIntended =>
      && o.purgeExecutedReceiptHash == ""
      && (forall k | 0 <= k < |es| :: es[k].state != ExecutionCompleted)
      && (exists k :: 0 <= k < |es| && (es[k].state == ExecutionIntent || es[k].state == ExecutionInterrupted))
    case BytesUnknown(_) => false
  }

  method ExportByteStateLayer(o: ObjectRow, es: seq<ExecutionRow>, receiptsByHash: map<string, ExportReceipt>, ghost r: Rows)
      returns (layer: Layer)
    requires es == ExecutionsOf(r.executions, o.objectId)
    requires forall h :: if h in receiptsByHash then ReceiptByHash(r.receipts, h) == Some(receiptsByHash[h])
                         else ReceiptByHash(r.receipts, h) == None
    ensures layer == Check(ByteStateConsistency, ByteStateConsistent(r, o))
  {
    match o.bytesState {
      case BytesStored =>
        return Check(ByteStateConsistency, |es| == 0 && o.purgeExecutedReceiptHash == "");
      case BytesPurged =>
        var k := 0;
        while k < |es| && es[k].state != ExecutionCompleted
          invariant 0 <= k <= |es| && forall l | 0 <= l < k :: es[l].state != ExecutionCompleted
        {
          k := k + 1;
        }
        if k == |es| {
          assert forall l: nat :: !FirstCompleted(es, l);
          return Layer(ByteStateConsistency, Failed);
        }
        assert FirstCompleted(es, k) && forall l: nat :: FirstCompleted(es, l) ==> l == k;
        if o.purgeExecutedReceiptHash != es[k].completionReceiptId {
          return Layer(ByteStateConsistency, Failed);
        }
        if o.purgeExecutedReceiptHash != "" {
          if o.purgeExecutedReceiptHash !in receiptsByHash {
            return Layer(ByteStateConsistency, Failed);
          }
          var receipt := receiptsByHash[o.purgeExecutedReceiptHash].receipt;
          if receipt.subjectId != o.objectId || receipt.action != PURGE_EXECUTED {
            return Layer(ByteStateConsistency, Failed);
          }
        }
        return Layer(ByteStateConsistency, Passed);
      case BytesIntended =>
        if o.purgeExecutedReceiptHash != "" {
          return Layer(ByteStateConsistency, Failed);
        }
        var hasIntent := false;
        for i := 0 to |es|
          invariant forall k | 0 <= k < i :: es[k].state != ExecutionCompleted
          invariant hasIntent <==> exists k :: 0 <= k < i && (es[k].state == ExecutionIntent || es[k].state == ExecutionInterrupted)
        {
          if es[i].state == ExecutionCompleted {
            return Layer(ByteStateConsistency, Failed);
          }
          if es[i].state == ExecutionIntent || es[i].state == ExecutionInterrupted {
            hasIntent := true;
          }
        }
        return Check(ByteStateConsistency, hasIntent);
      case BytesUnknown(_) =>
        return Layer(ByteStateConsistency, Failed);
    }
  }

  /** `aggregateExportByteState`: unlike the receipt aggregation it never skips when there are objects. */
  method AggregateByteState(layers: seq<Layer>) returns (layer: Layer)
    requires forall i | 0 <= i < |layers| :: layers[i].status != Skipped
    ensures layer == Aggregate(ByteStateConsistency, layers)
  {
    assert layers != [] ==> layers[0].status != Skipped;
    if |layers| == 0 {
      return Layer(ByteStateConsistency, Skipped);
    }
    if |layers| == 1 {
      return layers[0].(name := ByteStateConsistency);
    }
    for i := 0 to |layers|
      invariant forall k | 0 <= k < i :: layers[k].status != Failed
    {
      if layers[i].status == Failed {
        return Layer(ByteStateConsistency, Failed);
      }
    }
    layer := Layer(ByteStateConsistency, Passed);
  }

  // ------------------------------------------------------------ receipt layers

  function KeyOf(ks: seq<KeyRow>, keyId: string): Option<KeyRow> {
    if ks == [] then None
    else if ks[|ks| - 1].keyId == keyId then Some(ks[|ks| - 1])
    else KeyOf(ks[..|ks| - 1], keyId)
  }

  function ScopeOfObject(os: seq<ObjectRow>, objectId: string): Option<SubjectScope> {
    if os == [] then None
    else if os[|os| - 1].objectId == objectId then
      var scope := os[|os| - 1].scope;
      Some(SubjectScope(scope.tenantId, scope.companyId, scope.period))
    else ScopeOfObject(os[..|os| - 1], objectId)
  }

  /** A key row as the signing-key checks see it; a missing row is a key that was not found. */
  function SigningKeyOf(key: Option<KeyRow>): SigningKey {
    match key
    case None => SigningKey(false, "", "", "", "")
    case Some(k) => SigningKey(true, k.algorithm, k.publicKey, k.createdAt, k.revokedAt)
  }

  /** `verifyExportReceipt`: the six layers of one receipt, in the fixed order. */
  function VerifyExportReceipt(x: Checkers, e: ExportReceipt, key: Option<KeyRow>, subject: Option<SubjectScope>,
                               prevComputed: string, predecessorResolved: bool): (layers: seq<Layer>)
    ensures |layers| == |RECEIPT_LAYERS|
  {
    var payload := x.decodePayload(e.payloadJson);
    var signingKey := SigningKeyOf(key);
    [if payload.None? then Layer(PayloadCanonicalization, Failed)
     else VerifyPayloadCanonicalization(x, e.payloadJson, payload.value, e.receipt),
     if payload.None? then Layer(EnvelopeIntegrity, Skipped)
     else VerifyEnvelopeIntegrity(x, e.receipt, payload.value, e.receiptHash),
     VerifySignature(x, e.receipt, if key.None? then None else DecodeSigningPublicKey(x, signingKey)),
     VerifySigningKeyValidity(x, signingKey, e.receipt),
     if payload.None? then Layer(TenantCompanyScope, Skipped)
     else if subject.Some? then VerifyTenantCompanyScope(e.receipt, payload.value, subject.value)
     else Layer(TenantCompanyScope, Failed),
     VerifyChainLink(e.receipt, prevComputed, predecessorResolved)]
  }

  predicate NoneFailed(layers: seq<Layer>) {
    forall k | 0 <= k < |layers| :: layers[k].status != Failed
  }

  predicate AllPassed(layers: seq<Layer>) {
    forall k | 0 <= k < |layers| :: layers[k].status == Passed
  }

  /** No skipped layer can hide: what skips a layer fails another one of the same receipt. */
  lemma SkipsNeverHide(x: Checkers, e: ExportReceipt, key: Option<KeyRow>, subject: Option<SubjectScope>,
                       prevComputed: string, predecessorResolved: bool)
    ensures
      var layers := VerifyExportReceipt(x, e, key, subject, prevComputed, predecessorResolved);
      NoneFailed(layers) <==> AllPassed(layers)
  {
    var layers := VerifyExportReceipt(x, e, key, subject, prevComputed, predecessorResolved);
    if NoneFailed(layers) {
      assert layers[0].status != Failed && layers[3].status != Failed && layers[4].status != Failed;
    }
  }

  /** The receipt at position i follows one of the same subject. */
  predicate Follows(xs: seq<ExportReceipt>, i: nat)
    requires i < |xs|
  {
    i > 0 && SubjectOf(xs[i - 1]) == SubjectOf(xs[i])
  }

  function LayersAt(x: Checkers, r: Rows, i: nat): seq<Layer>
    requires i < |r.receipts|
  {
    var e := r.receipts[i];
    VerifyExportReceipt(x, e, KeyOf(r.keys, e.receipt.keyId), ScopeOfObject(r.objects, SubjectOf(e)),
                        if Follows(r.receipts, i) then x.receiptHash(r.receipts[i - 1].receipt) else "",
                        Follows(r.receipts, i))
  }

  /** What a passed report means. */
  ghost predicate AuditClean(x: Checkers, f: Formats, m: Manifest, r: Rows) {
    && Structural(f, m, r)
    && (forall o | o in r.objects :: ByteStateConsistent(r, o))
    && (forall i | 0 <= i < |r.receipts| :: AllPassed(LayersAt(x, r, i)))
  }

  // ------------------------------------------------------------------ verifier

  datatype Report = Report(version: string, exportId: string, passed: bool, layers: seq<Layer>,
                           receiptLayers: seq<seq<Layer>>, objectLayers: seq<Layer>)

  method IndexExecutions(es: array<ExecutionRow>) returns (byObject: map<string, seq<ExecutionRow>>)
    ensures forall id | id in byObject :: byObject[id] == ExecutionsOf(es[..], id)
    ensures forall id | id !in byObject :: ExecutionsOf(es[..], id) == []
  {
    byObject := map[];
    for i := 0 to es.Length
      invariant forall id | id in byObject :: byObject[id] == ExecutionsOf(es[..i], id)
      invariant forall id | id !in byObject :: ExecutionsOf(es[..i], id) == []
    {
      var id := es[i].objectId;
      assert es[..i + 1][..i] == es[..i] && es[..i + 1][i] == es[i];
      byObject := byObject[id := (if id in byObject then byObject[id] else []) + [es[i]]];
    }
    assert es[..es.Length] == es[..];
  }

  method IndexReceipts(xs: array<ExportReceipt>) returns (byHash: map<string, ExportReceipt>)
    ensures forall h :: if h in byHash then ReceiptByHash(xs[..], h) == Some(byHash[h]) else ReceiptByHash(xs[..], h) == None
  {
    byHash := map[];
    for i := 0 to xs.Length
      invariant forall h :: if h in byHash then ReceiptByHash(xs[..i], h) == Some(byHash[h]) else ReceiptByHash(xs[..i], h) == None
    {
      assert xs[..i + 1][..i] == xs[..i] && xs[..i + 1][i] == xs[i];
      byHash := byHash[xs[i].receiptHash := xs[i]];
    }
    assert xs[..xs.Length] == xs[..];
  }

  method IndexKeys(ks: array<KeyRow>) returns (byId: map<string, KeyRow>)
    ensures forall id :: if id in byId then KeyOf(ks[..], id) == Some(byId[id]) else KeyOf(ks[..], id) == None
  {
    byId := map[];
    for i := 0 to ks.Length
      invariant forall id :: if id in byId then KeyOf(ks[..i], id) == Some(byId[id]) else KeyOf(ks[..i], id) == None
    {
      assert ks[..i + 1][..i] == ks[..i] && ks[..i + 1][i] == ks[i];
      byId := byId[ks[i].keyId := ks[i]];
    }
    assert ks[..ks.Length] == ks[..];
  }

  method IndexScopes(os: array<ObjectRow>) returns (byId: map<string, SubjectScope>)
    ensures forall id :: if id in byId then ScopeOfObject(os[..], id) == Some(byId[id]) else ScopeOfObject(os[..], id) == None
  {
    byId := map[];
    for i := 0 to os.Length
      invariant forall id :: if id in byId then ScopeOfObject(os[..i], id) == Some(byId[id]) else ScopeOfObject(os[..i], id) == None
    {
      assert os[..i + 1][..i] == os[..i] && os[..i + 1][i] == os[i];
      var scope := os[i].scope;
      byId := byId[os[i].objectId := SubjectScope(scope.tenantId, scope.companyId, scope.period)];
    }
    assert os[..os.Length] == os[..];
  }

  method ByteStateLayers(b: EvidenceExportBundle) returns (layers: seq<Layer>)
    ensures |layers| == b.objects.Length
    ensures forall i | 0 <= i < |layers| ::
      layers[i] == Check(ByteStateConsistency, ByteStateConsistent(b.Contents(), b.objects[i]))
  {
    var execsByObject := IndexExecutions(b.executions);
    var receiptsByHash := IndexReceipts(b.receipts);
    layers := [];
    for i := 0 to b.objects.Length
      invariant |layers| == i
      invariant forall k | 0 <= k < i ::
        layers[k] == Check(ByteStateConsistency, ByteStateConsistent(b.Contents(), b.objects[k]))
    {
      var o := b.objects[i];
      var es := if o.objectId in execsByObject then execsByObject[o.objectId] else [];
      var layer := ExportByteStateLayer(o, es, receiptsByHash, b.Contents());
      layers := layers + [layer];
    }
  }

  /** One walk over the receipts; the computed predecessor is reset whenever the subject changes. */
  method ReceiptLayers(x: Checkers, b: EvidenceExportBundle) returns (perReceipt: seq<seq<Layer>>)
    ensures |perReceipt| == b.receipts.Length
    ensures forall i | 0 <= i < |perReceipt| :: perReceipt[i] == LayersAt(x, b.Contents(), i)
  {
    hide VerifyExportReceipt;
    var keysById := IndexKeys(b.keys);
    var objectScopes := IndexScopes(b.objects);
    perReceipt := [];
    var prevSubject, prevComputed, chainIndex := "", "", 0;
    for i := 0 to b.receipts.Length
      invariant |perReceipt| == i
      invariant forall k | 0 <= k < i :: perReceipt[k] == LayersAt(x, b.Contents(), k)
      invariant i == 0 ==> prevSubject == "" && prevComputed == "" && chainIndex == 0
      invariant i > 0 ==> chainIndex > 0 && prevSubject == SubjectOf(b.receipts[i - 1]) &&
                          prevComputed == x.receiptHash(b.receipts[i - 1].receipt)
    {
      var e := b.receipts[i];
      if e.receipt.subjectId != prevSubject {
        prevSubject, prevComputed, chainIndex := e.receipt.subjectId, "", 0;
      }
      var subject := if e.receipt.subjectId in objectScopes then Some(objectScopes[e.receipt.subjectId]) else None;
      var key := if e.receipt.keyId in keysById then Some(keysById[e.receipt.keyId]) else None;
      perReceipt := perReceipt + [VerifyExportReceipt(x, e, key, subject, prevComputed, chainIndex > 0)];
      prevComputed := x.receiptHash(e.receipt);
      chainIndex := chainIndex + 1;
    }
  }

  function Column(perReceipt: seq<seq<Layer>>, col: nat): seq<Layer>
    requires forall i | 0 <= i < |perReceipt| :: col < |perReceipt[i]|
  {
    seq(|perReceipt|, i requires 0 <= i < |perReceipt| => perReceipt[i][col])
  }

  /** The six columns, each aggregated under its name. */
  method AggregateColumns(perReceipt: seq<seq<Layer>>) returns (layers: seq<Layer>)
    requires forall i | 0 <= i < |perReceipt| :: |perReceipt[i]| == |RECEIPT_LAYERS|
    ensures |layers| == |RECEIPT_LAYERS|
    ensures forall col | 0 <= col < |layers| :: layers[col] == Aggregate(RECEIPT_LAYERS[col], Column(perReceipt, col))
  {
    layers := [];
    for col := 0 to |RECEIPT_LAYERS|
      invariant |layers| == col
      invariant forall k | 0 <= k < col :: layers[k] == Aggregate(RECEIPT_LAYERS[k], Column(perReceipt, k))
    {
      var layer := AggregateLayers(RECEIPT_LAYERS[col], Column(perReceipt, col));
      layers := layers + [layer];
    }
  }

  /** A column fails exactly when one of its receipts fails there. */
  lemma ColumnsFailIff(perReceipt: seq<seq<Layer>>, layers: seq<Layer>)
    requires forall i | 0 <= i < |perReceipt| :: |perReceipt[i]| == |RECEIPT_LAYERS|
    requires |layers| == |RECEIPT_LAYERS|
    requires forall col | 0 <= col < |layers| :: layers[col] == Aggregate(RECEIPT_LAYERS[col], Column(perReceipt, col))
    ensures NoneFailed(layers) <==> forall i | 0 <= i < |perReceipt| :: NoneFailed(perReceipt[i])
  {
    if NoneFailed(layers) {
      forall i, col | 0 <= i < |perReceipt| && 0 <= col < |perReceipt[i]| ensures perReceipt[i][col].status != Failed {
        assert layers[col].status != Failed;
        assert Column(perReceipt, col)[i] == perReceipt[i][col];
      }
    }
    if forall i | 0 <= i < |perReceipt| :: NoneFailed(perReceipt[i]) {
      forall col | 0 <= col < |layers| ensures layers[col].status != Failed {
        forall i | 0 <= i < |perReceipt| ensures Column(perReceipt, col)[i].status != Failed {
          assert NoneFailed(perReceipt[i]);
        }
      }
    }
  }

  /** `VerifyEvidenceExportBundle`: passed exactly when the canonical bundle is clean. */
  method VerifyEvidenceExportBundle(x: Checkers, f: Formats, b: EvidenceExportBundle) returns (report: Report)
    modifies b.Arrays
    ensures CanonicalRows(old(b.Contents()), b.Contents())
    ensures report.passed <==> AuditClean(x, f, b.manifest, b.Contents())
    ensures report.version == b.manifest.version && report.exportId == b.manifest.exportId
    ensures |report.layers| == 2 + |RECEIPT_LAYERS|
    ensures |report.receiptLayers| == |b.Contents().receipts|
    ensures forall i | 0 <= i < |report.receiptLayers| :: report.receiptLayers[i] == LayersAt(x, b.Contents(), i)
  {
    ghost var given := b.Contents();
    b.Canonicalize();
    ghost var canonical := b.Contents();
    var structural := AssertValidBundle(f, b);
    if b.Contents() != canonical {
      CanonicalizationComposes(given, canonical, b.Contents());
    }
    report := AuditCanonical(x, f, b, structural);
  }

  /** The layers of a canonical bundle whose structure was already checked. */
  method AuditCanonical(x: Checkers, f: Formats, b: EvidenceExportBundle, structural: bool) returns (report: Report)
    requires structural <==> Structural(f, b.manifest, b.Contents())
    ensures report.passed <==> AuditClean(x, f, b.manifest, b.Contents())
    ensures report.version == b.manifest.version && report.exportId == b.manifest.exportId
    ensures |report.layers| == 2 + |RECEIPT_LAYERS|
    ensures |report.receiptLayers| == |b.Contents().receipts|
    ensures forall i | 0 <= i < |report.receiptLayers| :: report.receiptLayers[i] == LayersAt(x, b.Contents(), i)
  {
    var objectLayers := ByteStateLayers(b);
    var byteState := AggregateByteState(objectLayers);
    var receiptLayers := ReceiptLayers(x, b);
    var columns := AggregateColumns(receiptLayers);
    var layers := [Check(BundleStructure, structural), byteState] + columns;
    var passed := Finalize(layers);
    PassedMeansClean(x, f, b.manifest, b.Contents(), structural, objectLayers, byteState, receiptLayers, columns, layers);
    report := Report(b.manifest.version, b.manifest.exportId, passed, layers, receiptLayers, objectLayers);
  }

  lemma PassedMeansClean(x: Checkers, f: Formats, m: Manifest, r: Rows, structural: bool, objectLayers: seq<Layer>,
                         byteState: Layer, receiptLayers: seq<seq<Layer>>, columns: seq<Layer>, layers: seq<Layer>)
    requires structural <==> Structural(f, m, r)
    requires |objectLayers| == |r.objects|
    requires forall i | 0 <= i < |r.objects| :: objectLayers[i] == Check(ByteStateConsistency, ByteStateConsistent(r, r.objects[i]))
    requires byteState == Aggregate(ByteStateConsistency, objectLayers)
    requires |receiptLayers| == |r.receipts|
    requires forall i | 0 <= i < |r.receipts| :: receiptLayers[i] == LayersAt(x, r, i)
    requires forall i | 0 <= i < |receiptLayers| :: |receiptLayers[i]| == |RECEIPT_LAYERS|
    requires |columns| == |RECEIPT_LAYERS|
    requires forall col | 0 <= col < |columns| :: columns[col] == Aggregate(RECEIPT_LAYERS[col], Column(receiptLayers, col))
    requires layers == [Check(BundleStructure, structural), byteState] + columns
    ensures !AnyFailed(layers) <==> AuditClean(x, f, m, r)
  {
    ColumnsFailIff(receiptLayers, columns);
    forall i | 0 <= i < |r.receipts| ensures NoneFailed(receiptLayers[i]) <==> AllPassed(LayersAt(x, r, i)) {
      var e := r.receipts[i];
      SkipsNeverHide(x, e, KeyOf(r.keys, e.receipt.keyId), ScopeOfObject(r.objects, SubjectOf(e)),
                     if Follows(r.receipts, i) then x.receiptHash(r.receipts[i - 1].receipt) else "", Follows(r.receipts, i));
    }
    TopLayersFailIff(structural, byteState, columns, layers);
    ByteStateFailsIff(r, objectLayers, byteState);
  }

  lemma TopLayersFailIff(structural: bool, byteState: Layer, columns: seq<Layer>, layers: seq<Layer>)
    requires layers == [Check(BundleStructure, structural), byteState] + columns
    ensures !AnyFailed(layers) <==> structural && byteState.status != Failed && NoneFailed(columns)
  {
    assert layers[0] == Check(BundleStructure, structural) && layers[1] == byteState;
    forall k | 0 <= k < |columns| ensures layers[k + 2] == columns[k] {
    }
    if structural && byteState.status != Failed && NoneFailed(columns) {
      forall i | 0 <= i < |layers| ensures layers[i].status != Failed {
        assert i >= 2 ==> layers[i] == columns[i - 2];
      }
    }
  }

  lemma ByteStateFailsIff(r: Rows, objectLayers: seq<Layer>, byteState: Layer)
    requires |objectLayers| == |r.objects|
    requires forall i | 0 <= i < |r.objects| :: objectLayers[i] == Check(ByteStateConsistency, ByteStateConsistent(r, r.objects[i]))
    requires byteState == Aggregate(ByteStateConsistency, objectLayers)
    ensures byteState.status != Failed <==> forall o | o in r.objects :: ByteStateConsistent(r, o)
  {
    if byteState.status != Failed {
      forall o | o in r.objects ensures ByteStateConsistent(r, o) {
        var i :| 0 <= i < |r.objects| && r.objects[i] == o;
        assert objectLayers[i].status != Failed;
      }
    }
  }
}
