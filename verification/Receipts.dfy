/** The bytes behind the receipt digests: what they tell apart and what they deliberately do not. */
module Receipts {
  import opened Records
  import opened CanonicalSets
  import opened Json

  function Field(key: string, text: string): Member {
    Member(key, Value.Text(text))
  }

  /** The members of a payload in canonical order; a v0.9.0 payload has three more. */
  function PayloadMembers(p: ReceiptPayload): seq<Member> {
    [Field("version", p.version), Field("subjectType", p.subjectType), Field("subjectId", p.subjectId),
     Field("action", p.action), Field("tenantId", p.tenantId), Field("companyId", p.companyId),
     Field("fiscalPeriodId", p.fiscalPeriodId), Field("reviewedEnvelopeHash", p.reviewedEnvelopeHash),
     Field("resultingEnvelopeHash", p.resultingEnvelopeHash), Field("reviewedJudgmentHash", p.reviewedJudgmentHash),
     Field("resultingJudgmentHash", p.resultingJudgmentHash), Field("fromMemoryId", p.fromMemoryId),
     Field("fromEnvelopeHash", p.fromEnvelopeHash), Field("toMemoryId", p.toMemoryId),
     Field("toEnvelopeHash", p.toEnvelopeHash), Field("successorId", p.successorId),
     Field("evidenceRef", p.evidenceRef), Field("reason", p.reason), Field("principalId", p.principalId),
     Field("membershipId", p.membershipId), Member("principalRoles", List(Canonical(p.principalRoles))),
     Field("authenticationMethod", p.authenticationMethod), Field("assuranceLevel", p.assuranceLevel),
     Field("principalAuthenticatedAt", p.principalAuthenticatedAt), Field("policyVersion", p.policyVersion),
     Field("issuedAt", p.issuedAt)]
    + if p.version != RECEIPT_PAYLOAD_VERSION_V09 then []
      else [Field("reviewedLifecycleHash", p.reviewedLifecycleHash),
            Field("resultingLifecycleHash", p.resultingLifecycleHash),
            Field("executionAttemptId", p.executionAttemptId)]
  }

  function CanonicalReceiptPayload(p: ReceiptPayload): string {
    PrintObject(PayloadMembers(p))
  }

  /** The payload as its digest sees it: roles as a canonical list, and the v0.9.0 fields only in a
      v0.9.0 payload. */
  function Canonicalized(p: ReceiptPayload): ReceiptPayload {
    var q := p.(principalRoles := Canonical(p.principalRoles));
    if p.version == RECEIPT_PAYLOAD_VERSION_V09 then q
    else q.(reviewedLifecycleHash := "", resultingLifecycleHash := "", executionAttemptId := "")
  }

  /** The payload fields that come first, and those that come after the judgment hashes. */
  predicate SameHead(p: ReceiptPayload, q: ReceiptPayload) {
    && p.version == q.version && p.subjectType == q.subjectType && p.subjectId == q.subjectId && p.action == q.action
    && p.tenantId == q.tenantId && p.companyId == q.companyId && p.fiscalPeriodId == q.fiscalPeriodId
    && p.reviewedEnvelopeHash == q.reviewedEnvelopeHash && p.resultingEnvelopeHash == q.resultingEnvelopeHash
    && p.reviewedJudgmentHash == q.reviewedJudgmentHash && p.resultingJudgmentHash == q.resultingJudgmentHash
    && p.fromMemoryId == q.fromMemoryId && p.fromEnvelopeHash == q.fromEnvelopeHash
  }

  predicate SameTail(p: ReceiptPayload, q: ReceiptPayload) {
    && p.toMemoryId == q.toMemoryId && p.toEnvelopeHash == q.toEnvelopeHash && p.successorId == q.successorId
    && p.evidenceRef == q.evidenceRef && p.reason == q.reason && p.principalId == q.principalId
    && p.membershipId == q.membershipId && Canonical(p.principalRoles) == Canonical(q.principalRoles)
    && p.authenticationMethod == q.authenticationMethod && p.assuranceLevel == q.assuranceLevel
    && p.principalAuthenticatedAt == q.principalAuthenticatedAt && p.policyVersion == q.policyVersion
    && p.issuedAt == q.issuedAt
  }

  lemma MembersFixHead(p: ReceiptPayload, q: ReceiptPayload)
    requires PayloadMembers(p) == PayloadMembers(q)
    ensures SameHead(p, q)
  {
    var ms, ns := PayloadMembers(p), PayloadMembers(q);
    assert ms[0] == ns[0] && ms[1] == ns[1] && ms[2] == ns[2] && ms[3] == ns[3] && ms[4] == ns[4];
    assert ms[5] == ns[5] && ms[6] == ns[6] && ms[7] == ns[7] && ms[8] == ns[8] && ms[9] == ns[9];
    assert ms[10] == ns[10] && ms[11] == ns[11] && ms[12] == ns[12];
  }

  lemma MembersFixTail(p: ReceiptPayload, q: ReceiptPayload)
    requires PayloadMembers(p) == PayloadMembers(q)
    ensures SameTail(p, q)
  {
    var ms, ns := PayloadMembers(p), PayloadMembers(q);
    assert ms[13] == ns[13] && ms[14] == ns[14] && ms[15] == ns[15] && ms[16] == ns[16] && ms[17] == ns[17];
    assert ms[18] == ns[18] && ms[19] == ns[19] && ms[20] == ns[20] && ms[21] == ns[21] && ms[22] == ns[22];
    assert ms[23] == ns[23] && ms[24] == ns[24] && ms[25] == ns[25];
  }

  lemma MembersFixExtension(p: ReceiptPayload, q: ReceiptPayload)
    requires PayloadMembers(p) == PayloadMembers(q)
    requires p.version == q.version == RECEIPT_PAYLOAD_VERSION_V09
    ensures p.reviewedLifecycleHash == q.reviewedLifecycleHash
    ensures p.resultingLifecycleHash == q.resultingLifecycleHash && p.executionAttemptId == q.executionAttemptId
  {
    var ms, ns := PayloadMembers(p), PayloadMembers(q);
    assert ms[26] == ns[26] && ms[27] == ns[27] && ms[28] == ns[28];
  }

  lemma MembersDetermine(p: ReceiptPayload, q: ReceiptPayload)
    requires PayloadMembers(p) == PayloadMembers(q)
    ensures Canonicalized(p) == Canonicalized(q)
  {
    MembersFixHead(p, q);
    MembersFixTail(p, q);
    if p.version == RECEIPT_PAYLOAD_VERSION_V09 {
      MembersFixExtension(p, q);
    }
  }

  /** Two payloads have the same canonical bytes exactly when they agree on every string field, hold the
      same non-empty roles, and, in version v0.9.0, agree on the three v0.9.0 fields. */
  lemma PayloadBytesIff(p: ReceiptPayload, q: ReceiptPayload)
    ensures CanonicalReceiptPayload(p) == CanonicalReceiptPayload(q) <==> SamePayload(p, q)
  {
    CanonicalIffSameElements(p.principalRoles, q.principalRoles);
    SameIffCanonicalized(p, q);
    if CanonicalReceiptPayload(p) == CanonicalReceiptPayload(q) {
      ObjectsAreReadable(PayloadMembers(p), PayloadMembers(q));
      MembersDetermine(p, q);
    } else if Canonicalized(p) == Canonicalized(q) {
      CanonicalizedPrintsTheSame(p);
      CanonicalizedPrintsTheSame(q);
    }
  }

  /** What the canonical bytes tell apart. */
  ghost predicate SamePayload(p: ReceiptPayload, q: ReceiptPayload) {
    && p.(principalRoles := [], reviewedLifecycleHash := "", resultingLifecycleHash := "", executionAttemptId := "") ==
       q.(principalRoles := [], reviewedLifecycleHash := "", resultingLifecycleHash := "", executionAttemptId := "")
    && Elements(p.principalRoles) - {""} == Elements(q.principalRoles) - {""}
    && (p.version == RECEIPT_PAYLOAD_VERSION_V09 ==>
          && p.reviewedLifecycleHash == q.reviewedLifecycleHash
          && p.resultingLifecycleHash == q.resultingLifecycleHash
          && p.executionAttemptId == q.executionAttemptId)
  }

  lemma SameIffCanonicalized(p: ReceiptPayload, q: ReceiptPayload)
    requires Canonical(p.principalRoles) == Canonical(q.principalRoles) <==>
             Elements(p.principalRoles) - {""} == Elements(q.principalRoles) - {""}
    ensures SamePayload(p, q) <==> Canonicalized(p) == Canonicalized(q)
  {
  }

  lemma CanonicalizedPrintsTheSame(p: ReceiptPayload)
    ensures CanonicalReceiptPayload(Canonicalized(p)) == CanonicalReceiptPayload(p)
  {
    CanonicalIsIdempotent(p.principalRoles);
    assert PayloadMembers(Canonicalized(p)) == PayloadMembers(p);
  }

  lemma CanonicalIsIdempotent(l: seq<string>)
    ensures Canonical(Canonical(l)) == Canonical(l)
  {
    CanonicalIsSorted(l);
    CanonicalIsSorted(Canonical(l));
    SortedIsUnique(Canonical(Canonical(l)), Canonical(l));
  }

  // ---------------------------------------------------------------- envelopes

  function EnvelopeHead(r: SignedReceipt): seq<Member> {
    [Field("subjectType", r.subjectType), Field("subjectId", r.subjectId), Field("action", r.action),
     Field("tenantId", r.tenantId), Field("companyId", r.companyId), Field("fiscalPeriodId", r.fiscalPeriodId),
     Field("payloadHash", r.payloadHash), Field("previousReceiptHash", r.previousReceiptHash),
     Field("principalId", r.principalId), Field("membershipId", r.membershipId),
     Field("policyVersion", r.policyVersion), Field("algorithm", r.algorithm), Field("keyId", r.keyId)]
  }

  /** What the key signs. */
  function CanonicalUnsignedEnvelope(r: SignedReceipt): string {
    PrintObject(EnvelopeHead(r) + [Field("issuedAt", r.issuedAt)])
  }

  /** What the next receipt of the subject chains on. */
  function CompleteReceiptBytes(r: SignedReceipt): string {
    PrintObject(EnvelopeHead(r) + [Field("signature", r.signature), Field("issuedAt", r.issuedAt)])
  }

  lemma HeadDetermines(r: SignedReceipt, t: SignedReceipt)
    requires EnvelopeHead(r) == EnvelopeHead(t)
    ensures r.(signature := "", issuedAt := "") == t.(signature := "", issuedAt := "")
  {
    var ms, ns := EnvelopeHead(r), EnvelopeHead(t);
    assert ms[0] == ns[0] && ms[1] == ns[1] && ms[2] == ns[2] && ms[3] == ns[3] && ms[4] == ns[4];
    assert ms[5] == ns[5] && ms[6] == ns[6] && ms[7] == ns[7] && ms[8] == ns[8] && ms[9] == ns[9];
    assert ms[10] == ns[10] && ms[11] == ns[11] && ms[12] == ns[12];
  }

  /** The complete bytes determine the receipt. */
  lemma CompleteBytesAreInjective(r: SignedReceipt, t: SignedReceipt)
    requires CompleteReceiptBytes(r) == CompleteReceiptBytes(t)
    ensures r == t
  {
    var ms := EnvelopeHead(r) + [Field("signature", r.signature), Field("issuedAt", r.issuedAt)];
    var ns := EnvelopeHead(t) + [Field("signature", t.signature), Field("issuedAt", t.issuedAt)];
    ObjectsAreReadable(ms, ns);
    assert EnvelopeHead(r) == ms[..13] && EnvelopeHead(t) == ns[..13];
    HeadDetermines(r, t);
    assert ms[13] == ns[13] && ms[14] == ns[14];
  }

  /** The signed bytes determine the receipt up to its signature, and nothing else. */
  lemma SignedBytesIff(r: SignedReceipt, t: SignedReceipt)
    ensures CanonicalUnsignedEnvelope(r) == CanonicalUnsignedEnvelope(t) <==> r.(signature := "") == t.(signature := "")
  {
    var ms := EnvelopeHead(r) + [Field("issuedAt", r.issuedAt)];
    var ns := EnvelopeHead(t) + [Field("issuedAt", t.issuedAt)];
    if r.(signature := "") == t.(signature := "") {
      assert ms == ns;
    }
    if CanonicalUnsignedEnvelope(r) == CanonicalUnsignedEnvelope(t) {
      ObjectsAreReadable(ms, ns);
      assert EnvelopeHead(r) == ms[..13] && EnvelopeHead(t) == ns[..13];
      HeadDetermines(r, t);
      assert ms[13] == ns[13];
    }
  }
}
