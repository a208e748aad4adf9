/** The offline verifier of an audit bundle, and what its "passed" means. */
module ExportVerify {
  import opened Text
  import opened Records
  import opened Verification
  import opened ExportOrdinals
  import opened Sorting
  import opened ExportReceipts
  import opened ExportRows
  import opened ExportBundle

  // -------------------------------------------------------------- as-of instant

  /** Takes the stamps of more rows into a running maximum. */
  method Consider<T(!new)>(a: array<T>, stamps: T -> seq<string>, max: string, ghost seen: set<string>) returns (latest: string)
    requires IsLatest(max, seen)
    ensures IsLatest(latest, seen + StampsOf(a[..], stamps))
  {
    latest := max;
    for i := 0 to a.Length
      invariant IsLatest(latest, seen + StampsOf(a[..i], stamps))
    {
      latest := ConsiderRow(stamps(a[i]), latest, seen + StampsOf(a[..i], stamps));
      assert a[..i + 1] == a[..i] + [a[i]];
      assert StampsOf(a[..i + 1], stamps) == StampsOf(a[..i], stamps) + (set t | t in stamps(a[i]));
    }
    assert a[..a.Length] == a[..];
  }

  method ConsiderRow(stamps: seq<string>, max: string, ghost seen: set<string>) returns (latest: string)
    requires IsLatest(max, seen)
    ensures IsLatest(latest, seen + set t | t in stamps)
  {
    latest := max;
    for i := 0 to |stamps|
      invariant IsLatest(latest, seen + set t | t in stamps[..i])
    {
      LessTotal(latest, stamps[i]);
      assert stamps[..i + 1] == stamps[..i] + [stamps[i]];
      if Less(latest, stamps[i]) {
        LaterStamp(latest, stamps[i], seen + set t | t in stamps[..i]);
        latest := stamps[i];
      }
    }
    assert stamps[..|stamps|] == stamps;
  }

  lemma LaterStamp(latest: string, next: string, seen: set<string>)
    requires IsLatest(latest, seen) && Less(latest, next)
    ensures IsLatest(next, seen + {next})
  {
    forall u | u in seen ensures LessEq(u, next) {
      if Less(u, latest) {
        LessTransitive(u, latest, next);
      }
    }
  }

  /** `EvidenceExportGeneratedAt`: the latest timestamp of any row. */
  method GeneratedAt(b: EvidenceExportBundle) returns (max: string)
    ensures IsLatest(max, Stamps(b.Contents()))
  {
    ghost var r := b.Contents();
    max := Consider(b.objects, ObjectStamps, "", {});
    ghost var seen := {} + StampsOf(r.objects, ObjectStamps);
    max := Consider(b.states, StateStamps, max, seen);
    seen := seen + StampsOf(r.states, StateStamps);
    max := Consider(b.policies, PolicyStamps, max, seen);
    seen := seen + StampsOf(r.policies, PolicyStamps);
    max := Consider(b.holds, HoldStamps, max, seen);
    seen := seen + StampsOf(r.holds, HoldStamps);
    max := Consider(b.requests, RequestStamps, max, seen);
    seen := seen + StampsOf(r.requests, RequestStamps);
    max := Consider(b.approvals, ApprovalStamps, max, seen);
    seen := seen + StampsOf(r.approvals, ApprovalStamps);
    max := Consider(b.executions, ExecutionStamps, max, seen);
    seen := seen + StampsOf(r.executions, ExecutionStamps);
    max := Consider(b.events, EventStamps, max, seen);
    seen := seen + StampsOf(r.events, EventStamps);
    max := Consider(b.receipts, ReceiptStamps, max, seen);
    seen := seen + StampsOf(r.receipts, ReceiptStamps);
    max := Consider(b.keys, KeyStamps, max, seen);
    assert {} + StampsOf(r.objects, ObjectStamps) == StampsOf(r.objects, ObjectStamps);
  }

  // ------------------------------------------------------------ scope coverage

  method AllRows<T(!new)>(a: array<T>, good: T -> bool) returns (all: bool)
    ensures all <==> forall r | r in a[..] :: good(r)
  {
    for i := 0 to a.Length
      invariant forall k | 0 <= k < i :: good(a[k])
    {
      if !good(a[i]) {
        assert a[i] in a[..];
        return false;
      }
    }
    all := true;
  }

  method IdsOf<T(!new)>(a: array<T>, id: T -> string) returns (ids: set<string>)
    ensures forall s :: s in ids <==> exists r | r in a[..] :: id(r) == s
  {
    ids := {};
    for i := 0 to a.Length
      invariant forall s :: s in ids <==> exists k | 0 <= k < i :: id(a[k]) == s
    {
      ids := ids + {id(a[i])};
    }
    forall s ensures s in ids <==> exists r | r in a[..] :: id(r) == s {
      if r :| r in a[..] && id(r) == s {
        var k :| 0 <= k < |a[..]| && a[..][k] == r;
        assert id(a[k]) == s;
      }
      if s in ids {
        var k :| 0 <= k < a.Length && id(a[k]) == s;
        assert a[k] in a[..];
      }
    }
  }

  /** An exact company scope: tenant, company and RUC. */
  predicate ExactScope(f: Formats, companyScope: bool, scope: RowScope) {
    companyScope && scope.tenantId != "" && scope.companyId != "" && f.validRuc(scope.ruc)
  }

  /** `ValidateEvidenceExportScopeCoverage`. */
  method ValidateScopeCoverage(f: Formats, b: EvidenceExportBundle) returns (ok: bool)
    ensures ok <==> ExactScope(f, b.manifest.companyScope, b.manifest.scope) && ScopeCovered(b.Contents(), b.manifest.scope)
  {
    var scope := b.manifest.scope;
    if !b.manifest.companyScope || scope.tenantId == "" || scope.companyId == "" || !f.validRuc(scope.ruc) {
      return false;
    }
    ghost var r := b.Contents();
    var objectIds := IdsOf(b.objects, (o: ObjectRow) => o.objectId);
    var requestIds := IdsOf(b.requests, (q: RequestRow) => q.requestId);
    assert forall id :: id in objectIds <==> KnownObject(r, id);
    assert forall id :: id in requestIds <==> KnownRequest(r, id);
    var objectsOk := AllRows(b.objects, (o: ObjectRow) => RowInScope(scope, o.scope));
    var requestsOk := AllRows(b.requests, (q: RequestRow) => RowInScope(scope, q.scope));
    var holdsOk := AllRows(b.holds, (h: HoldRow) => RowInScope(scope, h.scope));
    var policiesOk := AllRows(b.policies, (p: PolicyRow) => PolicyInScope(scope, p));
    var statesOk := AllRows(b.states, (s: StateRow) => s.objectId in objectIds);
    var approvalsOk := AllRows(b.approvals, (a: ApprovalRow) => a.requestId in requestIds);
    var executionsOk := AllRows(b.executions, (e: ExecutionRow) => e.requestId in requestIds);
    var eventsOk := AllRows(b.events, (e: EventRow) =>
      e.objectId in objectIds && (e.requestId == "" || e.requestId in requestIds));
    var receiptsOk := AllRows(b.receipts, (x: ExportReceipt) =>
      SubjectOf(x) in objectIds && StampedInScope(scope, x.receipt));
    ok := objectsOk && requestsOk && holdsOk && policiesOk && statesOk && approvalsOk && executionsOk && eventsOk && receiptsOk;
    assert forall x :: ReceiptInScope(r, scope, x) <==> SubjectOf(x) in objectIds && StampedInScope(scope, x.receipt);
  }

  predicate StampedInScope(scope: RowScope, receipt: SignedReceipt) {
    && receipt.tenantId == scope.tenantId && receipt.companyId == scope.companyId
    && (scope.period == "" || receipt.fiscalPeriodId == "" || receipt.fiscalPeriodId == scope.period)
  }

  // ----------------------------------------------------------------- structure

  predicate ValidCriteria(f: Formats, m: Manifest) {
    && m.criteriaCompany && !Blank(m.criteria.tenantId) && !Blank(m.criteria.companyId) && f.validRuc(m.criteria.ruc)
    && (m.criteria.period == "" || f.validPeriod(m.criteria.period))
  }

  predicate ValidObject(f: Formats, o: ObjectRow) {
    && f.validObject(o) && !o.bytesState.BytesUnknown?
    && (o.purgeExecutedReceiptHash != "" ==> o.bytesState.BytesPurged? && f.hash64(o.purgeExecutedReceiptHash))
  }

  predicate KeyExported(r: Rows, keyId: string) {
    exists k | k in r.keys :: k.keyId == keyId
  }

  /** Everything the structural layer asks of a canonical bundle. */
  ghost predicate Structural(f: Formats, m: Manifest, r: Rows) {
    && m.version == EXPORT_MODEL_VERSION && ValidCriteria(f, m)
    && ExactScope(f, m.companyScope, m.scope) && ScopeCovered(r, m.scope)
    && m.contentManifestHash == f.content(r) && m.bundleHash == f.envelope(CoreOf(m))
    && m.exportId == EXPORT_MODEL_VERSION + ":" + m.contentManifestHash
    && m.counts == CountsOf(r)
    && (forall o | o in r.objects :: ValidObject(f, o))
    && (forall x | x in r.receipts && x.receipt.keyId != "" :: KeyExported(r, x.receipt.keyId))
  }

  /** `BuildEvidenceExportManifest`. */
  function BuildManifest(f: Formats, companyScope: bool, scope: RowScope, criteriaCompany: bool, criteria: RowScope,
                         counts: Counts, generatedAt: string, contentHash: string): Manifest
  {
    var core := ManifestCore(EXPORT_MODEL_VERSION, companyScope, scope, criteriaCompany, criteria, generatedAt, counts, contentHash);
    Manifest(core.version, EXPORT_MODEL_VERSION + ":" + contentHash, companyScope, scope, criteriaCompany, criteria, generatedAt,
             counts, contentHash, f.envelope(core))
  }

  /** A sound manifest is the one that building from its own scope, criteria and rows gives: nothing in it is
      free but the as-of instant, and building makes a sound one whenever scope and rows are in order. */
  lemma SoundManifestsAreBuilt(f: Formats, m: Manifest, r: Rows)
    ensures Structural(f, m, r) <==>
            && m == BuildManifest(f, m.companyScope, m.scope, m.criteriaCompany, m.criteria, CountsOf(r), m.generatedAt, f.content(r))
            && ValidCriteria(f, m) && ExactScope(f, m.companyScope, m.scope) && ScopeCovered(r, m.scope)
            && (forall o | o in r.objects :: ValidObject(f, o))
            && (forall x | x in r.receipts && x.receipt.keyId != "" :: KeyExported(r, x.receipt.keyId))
  {
  }

  /** Two sound bundles with one bundle hash agree in scope, criteria, instant, counts and content digest, or two
      manifest cores collide. */
  lemma BundleHashesBind(f: Formats, m: Manifest, r: Rows, n: Manifest, q: Rows)
    requires Structural(f, m, r) && Structural(f, n, q) && m.bundleHash == n.bundleHash
    ensures (m == n && f.content(r) == f.content(q)) || (CoreOf(m) != CoreOf(n) && f.envelope(CoreOf(m)) == f.envelope(CoreOf(n)))
  {
  }

  /** `ComputeEvidenceExportContentHash`: the digest of the canonical rows. It sorts the shared arrays. */
  method ComputeContentHash(f: Formats, b: EvidenceExportBundle) returns (hash: string)
    modifies b.Arrays
    ensures CanonicalRows(old(b.Contents()), b.Contents())
    ensures hash == f.content(b.Contents())
  {
    b.Canonicalize();
    hash := f.content(Rows(b.objects[..], b.states[..], b.policies[..], b.holds[..], b.requests[..], b.approvals[..],
                           b.executions[..], b.events[..], b.receipts[..], b.keys[..]));
  }

  /** `AssertValidEvidenceExportBundle`, as an answer instead of an error. */
  method AssertValidBundle(f: Formats, b: EvidenceExportBundle) returns (ok: bool)
    modifies b.Arrays
    ensures b.Contents() == old(b.Contents()) || CanonicalRows(old(b.Contents()), b.Contents())
    ensures ok <==> Structural(f, b.manifest, b.Contents())
  {
    var m := b.manifest;
    if m.version != EXPORT_MODEL_VERSION || !ValidCriteria(f, m) {
      return false;
    }
    var covered := ValidateScopeCoverage(f, b);
    if !covered {
      return false;
    }
    ghost var before := b.Contents();
    var contentHash := ComputeContentHash(f, b);
    ScopeSurvives(before, b.Contents(), m.scope);
    if m.contentManifestHash != contentHash || m.bundleHash != f.envelope(CoreOf(m)) ||
       m.exportId != EXPORT_MODEL_VERSION + ":" + m.contentManifestHash {
      return false;
    }
    if m.counts != Counts(b.objects.Length, b.states.Length, b.policies.Length, b.holds.Length, b.requests.Length,
                          b.approvals.Length, b.executions.Length, b.events.Length, b.receipts.Length, b.keys.Length) {
      return false;
    }
    var objectsOk := AllRows(b.objects, (o: ObjectRow) => ValidObject(f, o));
    var exported := IdsOf(b.keys, (k: KeyRow) => k.keyId);
    assert forall id :: id in exported <==> KeyExported(b.Contents(), id);
    var keysOk := AllRows(b.receipts, (x: ExportReceipt) => x.receipt.keyId == "" || x.receipt.keyId in exported);
    ok := objectsOk && keysOk;
  }
}
