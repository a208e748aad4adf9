/** The receipts the store emits: every subject's receipts are one hash chain that the checks
    accept, and a memory's receipts hand its envelope on from one to the next. */
module ReceiptLog {
  import opened Records
  import opened StoreModel
  import opened Verification

  // ------------------------------------------------------------ emitted receipts

  /** Receipt i is its payload, signed, and chained on the subject's receipts before it. */
  predicate EmittedAt(p: Primitives, receipts: seq<SignedReceipt>, payloads: seq<ReceiptPayload>, i: nat)
    requires i < |receipts| == |payloads|
  {
    receipts[i] == Sign(p, payloads[i],
                        LatestReceiptHash(p, receipts[..i], payloads[i].subjectType, payloads[i].subjectId))
  }

  ghost predicate ReceiptsOk(p: Primitives, s: State) {
    && |s.receipts| == |s.payloads|
    && (forall i | 0 <= i < |s.receipts| :: EmittedAt(p, s.receipts, s.payloads, i))
    && (!p.signing ==> s.receipts == [])
    && (forall i | 0 <= i < |s.payloads| ::
          s.payloads[i].action in RECEIPT_ACTIONS && s.payloads[i].subjectType in RECEIPT_SUBJECT_TYPES)
  }

  lemma EmitKeepsReceipts(p: Primitives, s: State, payload: ReceiptPayload)
    requires ReceiptsOk(p, s)
    requires payload.action in RECEIPT_ACTIONS && payload.subjectType in RECEIPT_SUBJECT_TYPES
    ensures ReceiptsOk(p, Emit(p, s, payload))
  {
    var e := Emit(p, s, payload);
    forall i | 0 <= i < |e.receipts| ensures EmittedAt(p, e.receipts, e.payloads, i) {
      if i < |s.receipts| {
        assert EmittedAt(p, s.receipts, s.payloads, i);
        assert e.receipts[..i] == s.receipts[..i];
      } else {
        assert e.receipts[..i] == s.receipts;
      }
    }
  }

  /** The receipts of one subject, in insertion order. */
  function ReceiptsAbout(receipts: seq<SignedReceipt>, subjectType: string, subjectId: string): seq<SignedReceipt> {
    if receipts == [] then []
    else
      var earlier := ReceiptsAbout(receipts[..|receipts| - 1], subjectType, subjectId);
      if IsAbout(receipts[|receipts| - 1], subjectType, subjectId) then earlier + [receipts[|receipts| - 1]] else earlier
  }

  lemma {:induction false} LatestHashIsHead(p: Primitives, receipts: seq<SignedReceipt>, subjectType: string, subjectId: string)
    ensures
      var about := ReceiptsAbout(receipts, subjectType, subjectId);
      LatestReceiptHash(p, receipts, subjectType, subjectId) == if about == [] then "" else p.receiptHash(about[|about| - 1])
  {
    if receipts != [] {
      LatestHashIsHead(p, receipts[..|receipts| - 1], subjectType, subjectId);
    }
  }

  /** The checks recompute digests with the same functions the store signs with. */
  ghost predicate SameDigests(p: Primitives, x: Checkers) {
    && (forall r :: x.receiptHash(r) == p.receiptHash(r))
    && (forall payload :: x.payloadHash(payload) == p.payloadHash(payload))
    && NonEmptyDigests(x)
  }

  /** Every subject's receipts, in insertion order, pass the chain check at every position. */
  lemma {:induction false} EmittedChainsPass(p: Primitives, x: Checkers, receipts: seq<SignedReceipt>,
                                             payloads: seq<ReceiptPayload>, subjectType: string, subjectId: string)
    requires SameDigests(p, x) && |receipts| == |payloads|
    requires forall i | 0 <= i < |receipts| :: EmittedAt(p, receipts, payloads, i)
    ensures ChainPasses(x, ReceiptsAbout(receipts, subjectType, subjectId))
  {
    if receipts != [] {
      var n := |receipts| - 1;
      var before, beforePayloads := receipts[..n], payloads[..n];
      forall i | 0 <= i < n ensures EmittedAt(p, before, beforePayloads, i) {
        assert EmittedAt(p, receipts, payloads, i);
        assert before[..i] == receipts[..i];
      }
      EmittedChainsPass(p, x, before, beforePayloads, subjectType, subjectId);
      var earlier := ReceiptsAbout(before, subjectType, subjectId);
      var about := ReceiptsAbout(receipts, subjectType, subjectId);
      assert EmittedAt(p, receipts, payloads, n);
      LatestHashIsHead(p, before, payloads[n].subjectType, payloads[n].subjectId);
      forall k | 0 <= k < |about| ensures LinkPasses(x, about, k) {
        if k < |earlier| {
          assert LinkPasses(x, earlier, k);
          assert about[k] == earlier[k];
        }
      }
    }
  }

  /** A key that verifies what the store signs. */
  ghost predicate VerifiesSignatures(p: Primitives, x: Checkers, rawKey: string) {
    forall r: SignedReceipt | r.signature == "" ::
      x.decodeSignature(p.signature(r)).Some? && x.verifies(rawKey, r, x.decodeSignature(p.signature(r)).value)
  }

  /** The per-receipt checks accept each emitted receipt with the payload it signed. */
  lemma EmittedReceiptPasses(p: Primitives, x: Checkers, s: State, i: nat, rawKey: string)
    requires ReceiptsOk(p, s) && SameDigests(p, x) && VerifiesSignatures(p, x, rawKey) && i < |s.receipts|
    ensures
      var r, payload := s.receipts[i], s.payloads[i];
      && VerifyPayloadCanonicalization(x, x.canonicalPayload(payload), payload, r).status == Passed
      && VerifyEnvelopeIntegrity(x, r, payload, p.receiptHash(r)).status == Passed
      && VerifySignature(x, r, Some(rawKey)).status == Passed
  {
    assert EmittedAt(p, s.receipts, s.payloads, i);
    var r := s.receipts[i];
    assert r.(signature := "").signature == "";
    assert r.signature == p.signature(r.(signature := ""));
  }

  // -------------------------------------------------------------- continuity

  /** The envelope a memory receipt starts from: "" for a recording. */
  function StartsAt(payload: ReceiptPayload): string {
    if payload.reviewedEnvelopeHash != "" then payload.reviewedEnvelopeHash else payload.fromEnvelopeHash
  }

  predicate AboutMemory(payload: ReceiptPayload, id: string) {
    payload.subjectType == MEMORY_SUBJECT && payload.subjectId == id
  }

  /** The envelope that the memory's receipts have committed last, "" when they committed none. */
  function Committed(payloads: seq<ReceiptPayload>, id: string): string {
    if payloads == [] then ""
    else
      var last := payloads[|payloads| - 1];
      if AboutMemory(last, id) && last.resultingEnvelopeHash != "" then last.resultingEnvelopeHash
      else if AboutMemory(last, id) && last.toEnvelopeHash != "" then last.toEnvelopeHash
      else Committed(payloads[..|payloads| - 1], id)
  }

  predicate JoinsAt(payloads: seq<ReceiptPayload>, i: nat)
    requires i < |payloads|
  {
    payloads[i].subjectType == MEMORY_SUBJECT ==>
      StartsAt(payloads[i]) == Committed(payloads[..i], payloads[i].subjectId)
  }

  /** Each memory receipt starts at the envelope that the memory's receipts before it committed. */
  ghost predicate Joined(payloads: seq<ReceiptPayload>) {
    forall i | 0 <= i < |payloads| :: JoinsAt(payloads, i)
  }

  /** The memory's receipts have committed its current, freshly computed envelope. */
  predicate HeadCommits(p: Primitives, payloads: seq<ReceiptPayload>, m: Memory) {
    Committed(payloads, m.id) == Envelope(p, m)
  }

  ghost predicate Continuous(p: Primitives, s: State) {
    p.signing ==>
      Joined(s.payloads) && forall i | 0 <= i < |s.memories| :: HeadCommits(p, s.payloads, s.memories[i])
  }

  ghost predicate NonEmptyEnvelopes(p: Primitives) {
    forall v :: p.envelopeHash(v) != ""
  }

  lemma CommittedAppend(payloads: seq<ReceiptPayload>, payload: ReceiptPayload, id: string)
    ensures Committed(payloads + [payload], id) ==
            if AboutMemory(payload, id) && payload.resultingEnvelopeHash != "" then payload.resultingEnvelopeHash
            else if AboutMemory(payload, id) && payload.toEnvelopeHash != "" then payload.toEnvelopeHash
            else Committed(payloads, id)
  {
    assert (payloads + [payload])[..|payloads|] == payloads;
  }

  lemma JoinedAppend(payloads: seq<ReceiptPayload>, payload: ReceiptPayload)
    requires Joined(payloads)
    requires payload.subjectType == MEMORY_SUBJECT ==> StartsAt(payload) == Committed(payloads, payload.subjectId)
    ensures Joined(payloads + [payload])
  {
    var longer := payloads + [payload];
    forall i | 0 <= i < |longer| ensures JoinsAt(longer, i) {
      if i < |payloads| {
        assert JoinsAt(payloads, i);
        assert longer[..i] == payloads[..i];
      } else {
        assert longer[..i] == payloads;
      }
    }
  }

  /** A receipt that moves row `at` from its envelope to its new one keeps the receipts continuous. */
  lemma MoveKeepsContinuous(p: Primitives, s: State, at: nat, m: Memory, payload: ReceiptPayload, t: State)
    requires NonEmptyEnvelopes(p) && Continuous(p, s) && at < |s.memories| && m.id == s.memories[at].id
    requires forall i | 0 <= i < |s.memories| && i != at :: s.memories[i].id != m.id
    requires AboutMemory(payload, m.id) && StartsAt(payload) == Envelope(p, s.memories[at])
    requires payload.resultingEnvelopeHash == Envelope(p, m) ||
             (payload.resultingEnvelopeHash == "" && payload.toEnvelopeHash == Envelope(p, m))
    requires t.memories == s.memories[at := m]
    requires p.signing ==> t.payloads == s.payloads + [payload]
    ensures Continuous(p, t)
  {
    if p.signing {
      assert HeadCommits(p, s.payloads, s.memories[at]);
      JoinedAppend(s.payloads, payload);
      forall i | 0 <= i < |t.memories| ensures HeadCommits(p, t.payloads, t.memories[i]) {
        assert HeadCommits(p, s.payloads, s.memories[i]);
        CommittedAppend(s.payloads, payload, t.memories[i].id);
      }
    }
  }

  /** A recording receipt starts the receipts of a new row. */
  lemma RecordKeepsContinuous(p: Primitives, s: State, m: Memory, payload: ReceiptPayload, t: State)
    requires NonEmptyEnvelopes(p) && Continuous(p, s)
    requires forall i | 0 <= i < |s.memories| :: s.memories[i].id != m.id
    requires p.signing ==> Committed(s.payloads, m.id) == ""
    requires AboutMemory(payload, m.id) && StartsAt(payload) == "" && payload.resultingEnvelopeHash == Envelope(p, m)
    requires t.memories == s.memories + [m]
    requires p.signing ==> t.payloads == s.payloads + [payload]
    ensures Continuous(p, t)
  {
    if p.signing {
      JoinedAppend(s.payloads, payload);
      forall i | 0 <= i < |t.memories| ensures HeadCommits(p, t.payloads, t.memories[i]) {
        if i < |s.memories| {
          assert HeadCommits(p, s.payloads, s.memories[i]);
        }
        CommittedAppend(s.payloads, payload, t.memories[i].id);
      }
    }
  }

  /** A receipt about another kind of subject keeps the memories' receipts continuous. */
  lemma OtherSubjectKeepsContinuous(p: Primitives, s: State, payload: ReceiptPayload, t: State)
    requires Continuous(p, s) && payload.subjectType != MEMORY_SUBJECT && t.memories == s.memories
    requires p.signing ==> t.payloads == s.payloads + [payload]
    ensures Continuous(p, t)
  {
    if p.signing {
      JoinedAppend(s.payloads, payload);
      forall i | 0 <= i < |t.memories| ensures HeadCommits(p, t.payloads, t.memories[i]) {
        assert HeadCommits(p, s.payloads, s.memories[i]);
        CommittedAppend(s.payloads, payload, t.memories[i].id);
      }
    }
  }

  /** Receipts about memories are about stored ones. */
  ghost predicate SubjectsKnown(s: State) {
    forall i | 0 <= i < |s.payloads| && s.payloads[i].subjectType == MEMORY_SUBJECT ::
      FindMemory(s.memories, s.payloads[i].subjectId) >= 0
  }

  lemma {:induction false} UnknownCommitsNothing(ms: seq<Memory>, payloads: seq<ReceiptPayload>, id: string)
    requires forall i | 0 <= i < |payloads| && payloads[i].subjectType == MEMORY_SUBJECT ::
      FindMemory(ms, payloads[i].subjectId) >= 0
    requires FindMemory(ms, id) < 0
    ensures Committed(payloads, id) == ""
  {
    if payloads != [] {
      assert !AboutMemory(payloads[|payloads| - 1], id);
      UnknownCommitsNothing(ms, payloads[..|payloads| - 1], id);
    }
  }
}
