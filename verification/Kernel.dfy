/** The store over the source's own preimages: only the digest, the signature and the case folding stay
    uninterpreted. Statements about digests hold unless two of the compared preimages collide. */
module Kernel {
  import opened Text
  import opened Records
  import opened StoreModel
  import opened Receipts
  import E = Envelope
  import CanonicalSets
  import JudgmentModel
  import Verification
  import ReceiptLog
  import StoreContinuity
  import StoreInvariants
  import StoreTheorems

  function RelationName(r: MemoryRelation): string {
    match r
    case Related => "related"
    case Compatible => "compatible"
    case Scoped => "scoped"
    case ConflictsWith => "conflicts_with"
    case Supersedes => "supersedes"
    case NotConflict => "not_conflict"
    case Supports => "supports"
    case Contradicts => "contradicts"
    case Explains => "explains"
    case DerivedFrom => "derived_from"
    case PostedAs => "posted_as"
    case Reconciles => "reconciles"
    case Reverses => "reverses"
    case Requires => "requires"
    case Violates => "violates"
    case ApprovedBy => "approved_by"
    case RejectedBy => "rejected_by"
  }

  /** The exact proposer identity that withdrawal and correction require. */
  function ProposerBinding(caller: Source): string {
    JoinNul([caller.system, caller.actorId, E.KindName(caller.actorKind), caller.session])
  }

  function ContentPreimage(input: SaveInput, effectiveAt: string): string {
    JoinNul([ScopeKey(input.scope), input.kind, input.title, E.EffectName(input.fiscalEffect), effectiveAt,
             input.content.what, input.content.why, input.content.where, input.content.learned,
             input.source.system, E.KindName(input.source.actorKind)])
  }

  /** The digest, the signing key and the text folding that the kernel is built on. */
  datatype Platform = Platform(
    digest: string -> string, judgmentHash: Judgment -> string, sign: string -> string, keyId: string,
    signing: bool, lower: string -> string, normalize: string -> string,
    parses: string -> bool)

  function Kernel(f: Platform): Primitives {
    Primitives(
      (topicKey, scope) => ChainKey(topicKey, scope),
      v => f.digest(E.Preimage(f.digest, v)),
      (input, effectiveAt) => f.digest(ContentPreimage(input, effectiveAt)),
      f.judgmentHash,
      parts => f.digest(JoinNul(parts)),
      RelationName,
      ProposerBinding,
      payload => f.digest(CanonicalReceiptPayload(payload)),
      receipt => f.digest(CompleteReceiptBytes(receipt)),
      receipt => f.sign(CanonicalUnsignedEnvelope(receipt)),
      f.keyId, f.signing, f.lower, f.normalize, f.parses, CanonicalSets.Canonical)
  }

  /** Two different preimages with one digest. */
  predicate Collision(f: Platform, a: string, b: string) {
    a != b && f.digest(a) == f.digest(b)
  }

  // ---------------------------------------------------------------- envelopes

  /** The check that the resulting envelope differs from the reviewed one never refuses a decision. */
  lemma StatusChangeShows(f: Platform, m: Memory, to: Status)
    requires to != m.status
    ensures Envelope(Kernel(f), m.(status := to)) != Envelope(Kernel(f), m) ||
            Collision(f, E.Preimage(f.digest, ViewOf(m.(status := to))), E.Preimage(f.digest, ViewOf(m)))
  {
    var v := ViewOf(m);
    assert ViewOf(m.(status := to)) == v.(status := to);
    if E.Preimage(f.digest, v.(status := to)) == E.Preimage(f.digest, v) {
      E.StatusShows(f.digest, v, to);
    }
  }

  /** The two preimages of a row that changes collide. */
  predicate RowCollides(f: Platform, before: Memory, after: Memory) {
    Collision(f, E.Preimage(f.digest, ViewOf(after)), E.Preimage(f.digest, ViewOf(before)))
  }

  /** Envelope continuity breaks at every approval through the gate, but for a collision of that row's own
      preimages. */
  lemma GateApprovalsBreak(f: Platform, s: State, memoryId: string, to: Status, actorKind: ActorKind)
    ensures
      var at := FindMemory(s.memories, memoryId);
      StoreContinuity.GateBreaks(Kernel(f), s, memoryId, to, actorKind) <==>
      at >= 0 && to == Approved && GateAllows(s.memories[at].status, to, actorKind) &&
      !RowCollides(f, s.memories[at], s.memories[at].(status := to))
  {
    var at := FindMemory(s.memories, memoryId);
    if at >= 0 && to == Approved && GateAllows(s.memories[at].status, to, actorKind) {
      StatusChangeShows(f, s.memories[at], to);
      assert ViewOf(WithStatus(Kernel(f), s.memories[at], to)) == ViewOf(s.memories[at].(status := to));
    }
  }

  /** Envelope continuity breaks at every new rule link, but for a collision of that row's own preimages. */
  lemma RuleLinksBreak(f: Platform, s: State, memoryId: string, ref: string)
    ensures
      var at := FindMemory(s.memories, memoryId);
      StoreContinuity.LinkBreaks(Kernel(f), s, RuleLink, memoryId, ref) <==>
      at >= 0 && !Blank(ref) && ref !in s.memories[at].ruleRefs &&
      !RowCollides(f, s.memories[at], s.memories[at].(ruleRefs := s.memories[at].ruleRefs + [ref]))
  {
    var at := FindMemory(s.memories, memoryId);
    if at >= 0 && !Blank(ref) && ref !in s.memories[at].ruleRefs {
      var m := s.memories[at];
      var grown := m.(ruleRefs := m.ruleRefs + [ref]);
      E.NewRefShows(f.digest, ViewOf(m), ref);
      assert ViewOf(Linked(Kernel(f), m, RuleLink, ref)) == ViewOf(grown) == ViewOf(m).(ruleRefs := m.ruleRefs + [ref]);
    }
  }

  // ------------------------------------------------------------------ commands

  /** Equal command hashes mean the same memory, reviewed hash and reason, when ids and hashes carry no NUL. */
  lemma CommandsAreBound(f: Platform, c: ApproveCommand, d: ApproveCommand)
    requires NulFree(c.memoryId) && NulFree(d.memoryId)
    requires NulFree(f.lower(c.expectedEnvelopeHash)) && NulFree(f.lower(d.expectedEnvelopeHash))
    requires CommandHash(Kernel(f), c) == CommandHash(Kernel(f), d)
    ensures
      || (c.memoryId == d.memoryId && f.lower(c.expectedEnvelopeHash) == f.lower(d.expectedEnvelopeHash) && c.reason == d.reason)
      || Collision(f, JoinNul([c.memoryId, f.lower(c.expectedEnvelopeHash), c.reason]),
                      JoinNul([d.memoryId, f.lower(d.expectedEnvelopeHash), d.reason]))
  {
    var a, b := [c.memoryId, f.lower(c.expectedEnvelopeHash), c.reason], [d.memoryId, f.lower(d.expectedEnvelopeHash), d.reason];
    if JoinNul(a) == JoinNul(b) {
      JoinNulInjective(a, b);
      assert a[0] == b[0] && a[1] == b[1] && a[2] == b[2];
    }
  }

  /** A ledger key names one tenant and one request, when tenant ids carry no NUL. */
  lemma LedgerKeysAreBound(tenantA: string, requestA: string, tenantB: string, requestB: string)
    requires NulFree(tenantA) && NulFree(tenantB)
    requires LedgerKey(tenantA, requestA) == LedgerKey(tenantB, requestB)
    ensures tenantA == tenantB && requestA == requestB
  {
    var a, b := [tenantA, requestA], [tenantB, requestB];
    JoinNulInjective(a, b);
    assert a[0] == b[0] && a[1] == b[1];
  }

  // ------------------------------------------------------------------ receipts

  /** Receipts that share a digest are one receipt, unless their complete bytes collide. */
  lemma ReceiptDigestsAreBound(f: Platform, r: SignedReceipt, t: SignedReceipt)
    requires Kernel(f).receiptHash(r) == Kernel(f).receiptHash(t)
    ensures r == t || Collision(f, CompleteReceiptBytes(r), CompleteReceiptBytes(t))
  {
    if CompleteReceiptBytes(r) == CompleteReceiptBytes(t) {
      CompleteBytesAreInjective(r, t);
    }
  }

  /** The payload hash of a receipt fixes the payload up to what canonicalization drops. */
  lemma PayloadDigestsAreBound(f: Platform, p: ReceiptPayload, q: ReceiptPayload)
    ensures Kernel(f).payloadHash(p) == Kernel(f).payloadHash(q) <==>
            SamePayload(p, q) || Collision(f, CanonicalReceiptPayload(p), CanonicalReceiptPayload(q))
  {
    PayloadBytesIff(p, q);
  }

  /** Rows of plain topics and scopes never share a chain. */
  lemma PlainRowsHaveOwnChains(f: Platform, ms: seq<Memory>)
    requires forall i | 0 <= i < |ms| :: NulFree(ms[i].topicKey) && PlainScope(ms[i].scope)
    ensures StoreInvariants.KeysSeparate(Kernel(f), ms)
  {
    StoreTheorems.PlainRowsAreSeparate(Kernel(f), ms);
  }
}
