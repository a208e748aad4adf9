/** The pure verification layers: what each check of a receipt, a chain or a walk decides. */
module Verification {
  import opened Records

  datatype CheckStatus = Passed | Failed | Skipped

  datatype LayerName =
    | BundleStructure | ByteStateConsistency | PayloadCanonicalization | EnvelopeIntegrity
    | SignatureLayer | SigningKeyValidity | TenantCompanyScope | ChainLink | PrincipalProvenance
    | SupersessionChain | EvidenceAvailability | ObjectAvailability | RuleAvailability
    | RuleVersionVigencia | JudgmentHashLayer

  datatype Layer = Layer(name: LayerName, status: CheckStatus)

  function Check(name: LayerName, ok: bool): Layer {
    Layer(name, if ok then Passed else Failed)
  }

  const RECEIPT_LAYERS: seq<LayerName> :=
    [PayloadCanonicalization, EnvelopeIntegrity, SignatureLayer, SigningKeyValidity, TenantCompanyScope, ChainLink]

  datatype SigningKey = SigningKey(found: bool, algorithm: string, publicKey: string, createdAt: string, revokedAt: string)

  /** Digests, decoders and Ed25519 verification, as the checks call them. */
  datatype Checkers = Checkers(
    canonicalPayload: ReceiptPayload -> string,
    payloadHash: ReceiptPayload -> string,
    receiptHash: SignedReceipt -> string,
    decodePayload: string -> Option<ReceiptPayload>,
    decodeKey: string -> Option<string>,       // strict base64 of exactly 32 bytes
    keyId: string -> string,
    decodeSignature: string -> Option<string>, // strict base64 of exactly 64 bytes
    verifies: (string, SignedReceipt, string) -> bool,
    instant: string -> Option<int>)            // strict RFC 3339

  // ----------------------------------------------------------- receipt layers

  function VerifyPayloadCanonicalization(x: Checkers, payloadJson: string, payload: ReceiptPayload, r: SignedReceipt): Layer {
    Check(PayloadCanonicalization, payloadJson == x.canonicalPayload(payload) && r.payloadHash == x.payloadHash(payload))
  }

  /** The fields that payload and envelope both carry. */
  predicate SameEnvelope(r: SignedReceipt, payload: ReceiptPayload) {
    && payload.subjectType == r.subjectType && payload.subjectId == r.subjectId && payload.action == r.action
    && payload.tenantId == r.tenantId && payload.companyId == r.companyId
    && payload.fiscalPeriodId == r.fiscalPeriodId && payload.principalId == r.principalId
    && payload.membershipId == r.membershipId && payload.policyVersion == r.policyVersion
    && payload.issuedAt == r.issuedAt
  }

  function VerifyEnvelopeIntegrity(x: Checkers, r: SignedReceipt, payload: ReceiptPayload, storedHash: string): Layer {
    Check(EnvelopeIntegrity,
          && r.subjectType in RECEIPT_SUBJECT_TYPES && r.action in RECEIPT_ACTIONS
          && r.algorithm == RECEIPT_ALGORITHM && SameEnvelope(r, payload) && x.receiptHash(r) == storedHash)
  }

  function DecodeSigningPublicKey(x: Checkers, key: SigningKey): Option<string> {
    if !key.found || key.algorithm != RECEIPT_ALGORITHM then None else x.decodeKey(key.publicKey)
  }

  function VerifySignature(x: Checkers, r: SignedReceipt, rawKey: Option<string>): Layer {
    if rawKey.None? then Layer(SignatureLayer, Skipped)
    else
      var signature := x.decodeSignature(r.signature);
      Check(SignatureLayer, signature.Some? && x.verifies(rawKey.value, r.(signature := ""), signature.value))
  }

  /** The validity window of a key covers an issuance instant. */
  predicate WindowCovers(x: Checkers, key: SigningKey, issuedAt: string) {
    var created, issued := x.instant(key.createdAt), x.instant(issuedAt);
    && created.Some? && issued.Some? && created.value <= issued.value
    && (key.revokedAt == "" ||
        (x.instant(key.revokedAt).Some? && issued.value < x.instant(key.revokedAt).value))
  }

  function VerifySigningKeyValidity(x: Checkers, key: SigningKey, r: SignedReceipt): Layer {
    if !key.found || key.algorithm != RECEIPT_ALGORITHM then Layer(SigningKeyValidity, Failed)
    else
      var raw := x.decodeKey(key.publicKey);
      Check(SigningKeyValidity, raw.Some? && x.keyId(raw.value) == r.keyId && WindowCovers(x, key, r.issuedAt))
  }

  function VerifyTenantCompanyScope(r: SignedReceipt, payload: ReceiptPayload, subject: SubjectScope): Layer {
    Check(TenantCompanyScope,
          && r.tenantId == subject.tenantId == payload.tenantId
          && r.companyId == subject.companyId == payload.companyId
          && r.fiscalPeriodId == subject.fiscalPeriodId == payload.fiscalPeriodId)
  }

  /** The link to the immediately preceding computed hash of the same subject. */
  function VerifyChainLink(r: SignedReceipt, prevComputed: string, predecessorResolved: bool): Layer {
    if r.previousReceiptHash == "" then Check(ChainLink, prevComputed == "")
    else if !predecessorResolved then Layer(ChainLink, Failed)
    else if prevComputed == "" then Layer(ChainLink, Failed)
    else Check(ChainLink, r.previousReceiptHash == prevComputed)
  }

  /** The link of position k of a subject's receipts, walked from genesis, passes. */
  ghost predicate LinkPasses(x: Checkers, rs: seq<SignedReceipt>, k: nat)
    requires k < |rs|
  {
    VerifyChainLink(rs[k], if k == 0 then "" else x.receiptHash(rs[k - 1]), k > 0).status == Passed
  }

  ghost predicate ChainPasses(x: Checkers, rs: seq<SignedReceipt>) {
    forall k | 0 <= k < |rs| :: LinkPasses(x, rs, k)
  }

  ghost predicate NonEmptyDigests(x: Checkers) {
    forall r :: x.receiptHash(r) != ""
  }

  /** Two different receipts, one of each chain, that share a digest. */
  ghost predicate Collide(x: Checkers, a: seq<SignedReceipt>, b: seq<SignedReceipt>) {
    exists r, t | r in a && t in b :: r != t && x.receiptHash(r) == x.receiptHash(t)
  }

  lemma PrefixPasses(x: Checkers, rs: seq<SignedReceipt>)
    requires ChainPasses(x, rs) && rs != []
    ensures ChainPasses(x, rs[..|rs| - 1])
  {
    var shorter := rs[..|rs| - 1];
    forall k | 0 <= k < |shorter| ensures LinkPasses(x, shorter, k) {
      assert LinkPasses(x, rs, k);
    }
  }

  /** Two chains that pass from genesis and end in the same digest are one chain, unless two of
      their receipts collide. Nothing is assumed of the digest but that it is never empty. */
  lemma {:induction false} HeadDeterminesChain(x: Checkers, a: seq<SignedReceipt>, b: seq<SignedReceipt>)
    requires NonEmptyDigests(x) && ChainPasses(x, a) && ChainPasses(x, b) && a != [] && b != []
    requires x.receiptHash(a[|a| - 1]) == x.receiptHash(b[|b| - 1])
    ensures a == b || Collide(x, a, b)
  {
    var r, t := a[|a| - 1], b[|b| - 1];
    var a', b' := a[..|a| - 1], b[..|b| - 1];
    assert a == a' + [r] && b == b' + [t];
    if r == t {
      assert LinkPasses(x, a, |a| - 1) && LinkPasses(x, b, |b| - 1);
      if a' != [] && b' != [] {
        PrefixPasses(x, a);
        PrefixPasses(x, b);
        HeadDeterminesChain(x, a', b');
      }
    } else {
      assert r in a && t in b;
    }
  }

  // --------------------------------------------------------- supersession walk

  datatype SupersessionLink = SupersessionLink(subjectId: string, successorId: string, superseded: bool, scope: SubjectScope)

  /** A walk in one scope, without repetition, in which exactly the superseded rows have a
      successor and every row but the last is superseded. */
  ghost predicate CleanWalk(links: seq<SupersessionLink>, scope: SubjectScope) {
    && links != []
    && (forall i | 0 <= i < |links| :: links[i].scope == scope)
    && (forall i, j | 0 <= i < j < |links| :: links[i].subjectId != links[j].subjectId)
    && (forall i | 0 <= i < |links| :: links[i].superseded <==> links[i].successorId != "")
    && (forall i | 0 <= i < |links| - 1 :: links[i].superseded)
  }

  method VerifySupersessionChain(links: seq<SupersessionLink>, chainScope: SubjectScope) returns (layer: Layer)
    ensures layer.name == SupersessionChain && layer.status != Skipped
    ensures layer.status == Passed <==> CleanWalk(links, chainScope)
  {
    if |links| == 0 {
      return Layer(SupersessionChain, Failed);
    }
    var seen: set<string> := {};
    for i := 0 to |links|
      invariant seen == set j | 0 <= j < i :: links[j].subjectId
      invariant forall j | 0 <= j < i :: links[j].scope == chainScope
      invariant forall j, k | 0 <= j < k < i :: links[j].subjectId != links[k].subjectId
      invariant forall j | 0 <= j < i :: links[j].superseded <==> links[j].successorId != ""
      invariant forall j | 0 <= j < i && j != |links| - 1 :: links[j].superseded
    {
      var link := links[i];
      if link.scope != chainScope {
        return Layer(SupersessionChain, Failed);
      }
      if link.subjectId in seen {
        return Layer(SupersessionChain, Failed);
      }
      seen := seen + {link.subjectId};
      if link.successorId != "" {
        if !link.superseded {
          return Layer(SupersessionChain, Failed);
        }
        continue;
      }
      if link.superseded {
        return Layer(SupersessionChain, Failed);
      }
      if i != |links| - 1 {
        return Layer(SupersessionChain, Failed);
      }
    }
    layer := Layer(SupersessionChain, Passed);
  }

  /** The check does not look at where a link points: a walk whose links route elsewhere, and whose
      last row still has a successor, passes. */
  lemma WalkRoutingIsNotChecked(scope: SubjectScope)
    ensures CleanWalk([SupersessionLink("a", "elsewhere", true, scope), SupersessionLink("b", "beyond", true, scope)], scope)
  {
    var links := [SupersessionLink("a", "elsewhere", true, scope), SupersessionLink("b", "beyond", true, scope)];
    assert links[0].subjectId[0] != links[1].subjectId[0];
  }

  // --------------------------------------------------------------- aggregation

  ghost predicate AnyFailed(layers: seq<Layer>) {
    exists i | 0 <= i < |layers| :: layers[i].status == Failed
  }

  ghost predicate AllSkipped(layers: seq<Layer>) {
    forall i | 0 <= i < |layers| :: layers[i].status == Skipped
  }

  /** Failed when an instance fails, skipped when every instance is skipped, passed otherwise. */
  ghost function Aggregate(name: LayerName, layers: seq<Layer>): Layer {
    Layer(name, if AnyFailed(layers) then Failed else if AllSkipped(layers) then Skipped else Passed)
  }

  method AggregateLayers(name: LayerName, layers: seq<Layer>) returns (layer: Layer)
    ensures layer == Aggregate(name, layers)
  {
    if |layers| == 1 {
      return layers[0].(name := name);
    }
    if |layers| == 0 {
      return Layer(name, Skipped);
    }
    var allSkipped := true;
    for i := 0 to |layers|
      invariant forall j | 0 <= j < i :: layers[j].status != Failed
      invariant allSkipped <==> forall j | 0 <= j < i :: layers[j].status == Skipped
    {
      if layers[i].status == Failed {
        return Layer(name, Failed);
      }
      if layers[i].status != Skipped {
        allSkipped := false;
      }
    }
    layer := Layer(name, if allSkipped then Skipped else Passed);
  }

  /** `finalize`: the outcome is passed unless a top-level layer failed. */
  method Finalize(layers: seq<Layer>) returns (passed: bool)
    ensures passed <==> !AnyFailed(layers)
  {
    for i := 0 to |layers|
      invariant forall j | 0 <= j < i :: layers[j].status != Failed
    {
      if layers[i].status == Failed {
        return false;
      }
    }
    passed := true;
  }
}
