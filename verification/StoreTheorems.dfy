/** What holds after every run of the store, in the terms of the checks an auditor makes. */
module StoreTheorems {
  import opened Text
  import opened Records
  import opened StoreModel
  import opened JudgmentModel
  import opened RevisionChains
  import opened StatusLog
  import opened DecisionLedger
  import opened Verification
  import opened ReceiptLog
  import opened StoreInvariants
  import opened StoreSteps
  import opened JudgmentChains
  import opened StoreRuns

  // ---------------------------------------------------------- revision chains

  /** Every chain numbers its revisions from 1; only the last can be active, pending or approved; each
      superseded revision points at the next one and no other points anywhere. */
  lemma ChainsAreLinear(p: Primitives, ops: seq<Op>, key: string)
    requires LegalRun(p, ops)
    ensures
      var c := ChainOf(p, Run(p, ops).memories, key);
      && (forall k | 0 <= k < |c| :: c[k].revision == k + 1)
      && (forall k | 0 <= k < |c| - 1 :: c[k].status != Active && c[k].status != PendingReview && c[k].status != Approved)
      && (forall k | 0 <= k < |c| ::
            if c[k].status == Superseded then k + 1 < |c| && c[k].supersedesId == c[k + 1].id else c[k].supersedesId == "")
  {
    RunKeepsInv(p, ops);
    assert ChainOkAt(p, Run(p, ops).memories, key);
  }

  /** The source's chain keys, over topics and scopes without NUL, keep rows of different topics or
      scopes apart. */
  lemma PlainRowsAreSeparate(p: Primitives, ms: seq<Memory>)
    requires forall topic, scope :: p.chainKey(topic, scope) == ChainKey(topic, scope)
    requires forall i | 0 <= i < |ms| :: NulFree(ms[i].topicKey) && PlainScope(ms[i].scope)
    ensures KeysSeparate(p, ms)
  {
    forall i, j | 0 <= i < |ms| && 0 <= j < |ms| && KeyOf(p, ms[i]) == KeyOf(p, ms[j])
      ensures ms[i].topicKey == ms[j].topicKey && ms[i].scope == ms[j].scope
    {
      PlainChainKeysDiffer(ms[i].topicKey, ms[i].scope, ms[j].topicKey, ms[j].scope);
    }
  }

  /** The cached envelope hash of a row is the one its fields give, unless the row was superseded. */
  lemma CachedEnvelopesAreFresh(p: Primitives, ops: seq<Op>, i: nat)
    requires LegalRun(p, ops) && i < |Run(p, ops).memories| && Run(p, ops).memories[i].status != Superseded
    ensures Run(p, ops).memories[i].envelopeHash == Envelope(p, Run(p, ops).memories[i])
  {
    RunKeepsInv(p, ops);
  }

  // ----------------------------------------------------------------- receipts

  /** The scope of the stored subject of a receipt. */
  function StoredScope(s: State, r: SignedReceipt): Option<SubjectScope> {
    if r.subjectType == MEMORY_SUBJECT then
      var at := FindMemory(s.memories, r.subjectId);
      if at < 0 then None else Some(ScopeOf(s.memories[at].scope))
    else if r.subjectType == JUDGMENT_SUBJECT then
      var at := FindJudgment(s.judgments, r.subjectId);
      if at < 0 then None else Some(JudgmentScope(s.judgments[at]))
    else None
  }

  /** The registered key that the store signs with. */
  ghost predicate RegisteredKey(p: Primitives, x: Checkers, key: SigningKey, rawKey: string) {
    && key.found && key.algorithm == RECEIPT_ALGORITHM && x.decodeKey(key.publicKey) == Some(rawKey)
    && x.keyId(rawKey) == p.keyId && VerifiesSignatures(p, x, rawKey)
  }

  /** Each receipt that the store emitted passes the four checks of its own bytes, against the payload it signed. */
  lemma EveryReceiptPasses(p: Primitives, x: Checkers, ops: seq<Op>, i: nat, key: SigningKey, rawKey: string)
    requires LegalRun(p, ops) && SameDigests(p, x) && RegisteredKey(p, x, key, rawKey)
    requires i < |Run(p, ops).receipts| && WindowCovers(x, key, Run(p, ops).receipts[i].issuedAt)
    ensures |Run(p, ops).payloads| == |Run(p, ops).receipts|
    ensures
      var s := Run(p, ops);
      var r, payload := s.receipts[i], s.payloads[i];
      && VerifyPayloadCanonicalization(x, x.canonicalPayload(payload), payload, r).status == Passed
      && VerifyEnvelopeIntegrity(x, r, payload, p.receiptHash(r)).status == Passed
      && VerifySignature(x, r, DecodeSigningPublicKey(x, key)).status == Passed
      && VerifySigningKeyValidity(x, key, r).status == Passed
  {
    var s := Run(p, ops);
    RunKeepsInv(p, ops);
    EmittedReceiptPasses(p, x, s, i, rawKey);
    assert EmittedAt(p, s.receipts, s.payloads, i);
  }

  /** The scope check, exactly: every receipt of a memory or a judgment passes it, except the receipt of a
      supersession by a revision whose scope is another one. */
  lemma ReceiptScopeIff(p: Primitives, ops: seq<Op>, i: nat)
    requires LegalRun(p, ops) && i < |Run(p, ops).receipts|
    requires Run(p, ops).receipts[i].subjectType == MEMORY_SUBJECT || Run(p, ops).receipts[i].subjectType == JUDGMENT_SUBJECT
    ensures |Run(p, ops).payloads| == |Run(p, ops).receipts| && StoredScope(Run(p, ops), Run(p, ops).receipts[i]).Some?
    ensures
      var s := Run(p, ops);
      var r, payload := s.receipts[i], s.payloads[i];
      VerifyTenantCompanyScope(r, payload, StoredScope(s, r).value).status == Passed <==>
      (r.subjectType == MEMORY_SUBJECT && r.action == MEMORY_SUPERSEDED ==>
         var at, next := FindMemory(s.memories, r.subjectId), FindMemory(s.memories, payload.successorId);
         at >= 0 && next >= 0 && ScopeOf(s.memories[at].scope) == ScopeOf(s.memories[next].scope))
  {
    var s := Run(p, ops);
    RunKeepsInv(p, ops);
    assert EmittedAt(p, s.receipts, s.payloads, i);
    assert |JUDGMENT_SUBJECT| != |MEMORY_SUBJECT|;
    assert ScopedAt(p, s.memories, s.payloads[i]);
    assert JudgmentAnchoredAt(s.judgments, s.payloads[i]);
  }

  /** Where no two rows of different scopes share a chain, every receipt passes the scope check. */
  lemma SeparateKeysPassTheScope(p: Primitives, ops: seq<Op>, i: nat)
    requires LegalRun(p, ops) && i < |Run(p, ops).receipts| && KeysSeparate(p, Run(p, ops).memories)
    requires Run(p, ops).receipts[i].subjectType == MEMORY_SUBJECT || Run(p, ops).receipts[i].subjectType == JUDGMENT_SUBJECT
    ensures |Run(p, ops).payloads| == |Run(p, ops).receipts| && StoredScope(Run(p, ops), Run(p, ops).receipts[i]).Some?
    ensures
      var s := Run(p, ops);
      VerifyTenantCompanyScope(s.receipts[i], s.payloads[i], StoredScope(s, s.receipts[i]).value).status == Passed
  {
    var s := Run(p, ops);
    RunKeepsInv(p, ops);
    ReceiptScopeIff(p, ops, i);
    assert EmittedAt(p, s.receipts, s.payloads, i);
    assert ScopedAt(p, s.memories, s.payloads[i]);
  }

  /** Each subject's receipts, in insertion order, pass the chain check at every position. */
  lemma EveryChainPasses(p: Primitives, x: Checkers, ops: seq<Op>, subjectType: string, subjectId: string)
    requires LegalRun(p, ops) && SameDigests(p, x)
    ensures ChainPasses(x, ReceiptsAbout(Run(p, ops).receipts, subjectType, subjectId))
  {
    RunKeepsInv(p, ops);
    EmittedChainsPass(p, x, Run(p, ops).receipts, Run(p, ops).payloads, subjectType, subjectId);
  }

  /** No receipt of the subject stands between these positions. */
  predicate NoneBetween(receipts: seq<SignedReceipt>, k: int, i: int, subjectType: string, subjectId: string) {
    forall l | 0 <= l < |receipts| && k < l < i :: receipts[l].subjectType != subjectType || receipts[l].subjectId != subjectId
  }

  /** The receipt at k is the subject's last one before position i. */
  predicate LastBefore(receipts: seq<SignedReceipt>, k: int, i: int, subjectType: string, subjectId: string) {
    && 0 <= k < i <= |receipts| && receipts[k].subjectType == subjectType && receipts[k].subjectId == subjectId
    && NoneBetween(receipts, k, i, subjectType, subjectId)
  }

  lemma {:induction false} LatestIsLast(p: Primitives, receipts: seq<SignedReceipt>, i: nat, subjectType: string, subjectId: string)
    requires i <= |receipts|
    ensures
      var hash := LatestReceiptHash(p, receipts[..i], subjectType, subjectId);
      || (hash == "" && NoneBetween(receipts, -1, i, subjectType, subjectId))
      || exists k :: LastBefore(receipts, k, i, subjectType, subjectId) && hash == p.receiptHash(receipts[k])
  {
    if i > 0 {
      assert receipts[..i][..i - 1] == receipts[..i - 1] && receipts[..i][i - 1] == receipts[i - 1];
      LatestIsLast(p, receipts, i - 1, subjectType, subjectId);
      if IsAbout(receipts[i - 1], subjectType, subjectId) {
        assert LastBefore(receipts, i - 1, i, subjectType, subjectId);
      } else if k :| LastBefore(receipts, k, i - 1, subjectType, subjectId) &&
                     LatestReceiptHash(p, receipts[..i - 1], subjectType, subjectId) == p.receiptHash(receipts[k]) {
        assert LastBefore(receipts, k, i, subjectType, subjectId);
      }
    }
  }

  /** Every receipt names the digest of the last one before it about the very same subject, type and id; the first one
      of a subject names none. */
  lemma ReceiptsNamePredecessors(p: Primitives, ops: seq<Op>, i: nat)
    requires LegalRun(p, ops) && i < |Run(p, ops).receipts|
    ensures
      var receipts := Run(p, ops).receipts;
      var r := receipts[i];
      || (r.previousReceiptHash == "" && NoneBetween(receipts, -1, i, r.subjectType, r.subjectId))
      || exists k :: LastBefore(receipts, k, i, r.subjectType, r.subjectId) && r.previousReceiptHash == p.receiptHash(receipts[k])
  {
    RunKeepsInv(p, ops);
    var s := Run(p, ops);
    assert EmittedAt(p, s.receipts, s.payloads, i);
    LatestIsLast(p, s.receipts, i, s.payloads[i].subjectType, s.payloads[i].subjectId);
  }

  lemma HeadFixesHistory(p: Primitives, x: Checkers, receipts: seq<SignedReceipt>, subjectType: string, subjectId: string,
                         claimed: seq<SignedReceipt>)
    requires SameDigests(p, x) && claimed != [] && ChainPasses(x, claimed)
    requires ChainPasses(x, ReceiptsAbout(receipts, subjectType, subjectId))
    requires LatestReceiptHash(p, receipts, subjectType, subjectId) == x.receiptHash(claimed[|claimed| - 1]) != ""
    ensures claimed == ReceiptsAbout(receipts, subjectType, subjectId) ||
            Collide(x, claimed, ReceiptsAbout(receipts, subjectType, subjectId))
  {
    LatestHashIsHead(p, receipts, subjectType, subjectId);
    HeadDeterminesChain(x, claimed, ReceiptsAbout(receipts, subjectType, subjectId));
  }

  /** A subject's head receipt commits its whole history: a chain that passes the checks and ends in the
      same digest is the history that the store wrote, or shows a digest collision. */
  lemma HeadCommitsHistory(p: Primitives, x: Checkers, ops: seq<Op>, subjectType: string, subjectId: string,
                           claimed: seq<SignedReceipt>)
    requires LegalRun(p, ops) && SameDigests(p, x) && claimed != [] && ChainPasses(x, claimed)
    requires
      var head := LatestReceiptHash(p, Run(p, ops).receipts, subjectType, subjectId);
      head != "" && x.receiptHash(claimed[|claimed| - 1]) == head
    ensures
      var history := ReceiptsAbout(Run(p, ops).receipts, subjectType, subjectId);
      claimed == history || Collide(x, claimed, history)
  {
    EveryChainPasses(p, x, ops, subjectType, subjectId);
    HeadFixesHistory(p, x, Run(p, ops).receipts, subjectType, subjectId, claimed);
  }

  // ------------------------------------------------------------ status and log

  /** At an instant past all of a row's entries, the log says what the row says; a superseded row was
      current when it gave way. */
  lemma LogAgreesWithStatus(p: Primitives, ops: seq<Op>, i: nat, instant: string, asOf: Status)
    requires LegalRun(p, ops) && i < |Run(p, ops).memories|
    requires
      var s := Run(p, ops);
      var m := s.memories[i];
      && (forall k | 0 <= k < |s.transitions| && s.transitions[k].memoryId == m.id :: InEffect(s.transitions[k], instant))
      && HoldsAsOf(InitialStatus(m.fiscalEffect), EntriesOf(s.transitions, m.id), instant, asOf)
    ensures
      var m := Run(p, ops).memories[i];
      if m.status == Superseded then CanVoid(asOf) else asOf == m.status
  {
    var s := Run(p, ops);
    var m := s.memories[i];
    RunKeepsInv(p, ops);
    assert StatusReplays(m, s.transitions);
    ReplayIsStatusAsOf(s.transitions, m.id, InitialStatus(m.fiscalEffect), instant, asOf);
  }

  /** Each entry starts at the status that the log gave its row just before, and moves it legally. */
  lemma EntriesStartWhereTheLogStood(p: Primitives, ops: seq<Op>, k: nat)
    requires LegalRun(p, ops) && k < |Run(p, ops).transitions|
    ensures
      var s := Run(p, ops);
      var at := FindMemory(s.memories, s.transitions[k].memoryId);
      && at >= 0 && Gated(s.transitions[k])
      && s.transitions[k].from == Replay(s.transitions[..k], s.transitions[k].memoryId, InitialStatus(s.memories[at].fiscalEffect))
  {
    RunKeepsInv(p, ops);
    assert EntryOk(Run(p, ops).memories, Run(p, ops).transitions, k);
  }

  /** Every approved row was approved by a human, and that is the last thing the log says of it. */
  lemma ApprovedRowsWereApprovedByHumans(p: Primitives, ops: seq<Op>, i: nat)
    requires LegalRun(p, ops) && i < |Run(p, ops).memories| && Run(p, ops).memories[i].status == Approved
    ensures
      var s := Run(p, ops);
      exists k | 0 <= k < |s.transitions| ::
        LastByHuman(s.transitions, s.memories[i].id, k) && s.transitions[k].from == PendingReview
  {
    var s := Run(p, ops);
    var m := s.memories[i];
    RunKeepsInv(p, ops);
    assert StatusReplays(m, s.transitions);
    forall k | 0 <= k < |s.transitions| ensures Gated(s.transitions[k]) {
      assert EntryOk(s.memories, s.transitions, k);
    }
    var k := ApprovedByHuman(s.transitions, m.id, InitialStatus(m.fiscalEffect));
    assert Gated(s.transitions[k]);
  }

  /** The gate leaves the log in order exactly when the move it logs is one of the legal ones. Approved,
      rejected and voided always are; the store does not check other targets. */
  lemma GateKeepsLogIff(p: Primitives, s: State, memoryId: string, to: Status, actor: string, actorKind: ActorKind,
                        now: string, after: State)
    requires RowPart(p, s) && FindMemory(s.memories, memoryId) >= 0
    requires GateAllows(s.memories[FindMemory(s.memories, memoryId)].status, to, actorKind)
    requires after == GateStep(p, s, memoryId, to, actor, actorKind, now).0
    ensures
      var from := s.memories[FindMemory(s.memories, memoryId)].status;
      LogOk(after.memories, after.transitions) <==> Gated(Transition(memoryId, from, to, actor, actorKind, now))
    ensures GateTarget(to) ==> LogOk(after.memories, after.transitions)
  {
    var at := FindMemory(s.memories, memoryId);
    var t := Transition(memoryId, s.memories[at].status, to, actor, actorKind, now);
    var m := WithStatus(p, s.memories[at], to);
    GateLogs(p, s, memoryId, to, actor, actorKind, now, after);
    if Gated(t) {
      MoveKeepsLog(s.memories, s.transitions, at, m, t);
    } else {
      assert !EntryOk(after.memories, after.transitions, |s.transitions|);
    }
  }

  lemma GateLogs(p: Primitives, s: State, memoryId: string, to: Status, actor: string, actorKind: ActorKind,
                 now: string, after: State)
    requires FindMemory(s.memories, memoryId) >= 0
    requires GateAllows(s.memories[FindMemory(s.memories, memoryId)].status, to, actorKind)
    requires after == GateStep(p, s, memoryId, to, actor, actorKind, now).0
    ensures
      var at := FindMemory(s.memories, memoryId);
      && after.memories == s.memories[at := WithStatus(p, s.memories[at], to)]
      && after.transitions == s.transitions + [Transition(memoryId, s.memories[at].status, to, actor, actorKind, now)]
  {
    var at := FindMemory(s.memories, memoryId);
    var before := s.memories[at];
    var m := WithStatus(p, before, to);
    var s1 := s.(memories := s.memories[at := m],
                 transitions := s.transitions + [Transition(memoryId, before.status, to, actor, actorKind, now)]);
    var payload := TransitionPayload(p, before, m, actor, now);
    assert Emit(p, s1, payload).memories == s1.memories && Emit(p, s1, payload).transitions == s1.transitions;
  }

  /** An agent can send any row back to review through the gate, whatever its status, and the log no longer
      holds; a superseded row then still names its successor, and its chain is no longer in order. */
  lemma UncheckedTargetReopens(p: Primitives, s: State, memoryId: string, actor: string, now: string, after: State)
    requires RowPart(p, s) && FindMemory(s.memories, memoryId) >= 0
    requires after == GateStep(p, s, memoryId, PendingReview, actor, Agent, now).0
    ensures
      var at := FindMemory(s.memories, memoryId);
      && after.memories[at].status == PendingReview && !LogOk(after.memories, after.transitions)
      && (s.memories[at].status == Superseded ==> !RowsOk(p, after.memories))
  {
    var at := FindMemory(s.memories, memoryId);
    GateLogs(p, s, memoryId, PendingReview, actor, Agent, now, after);
    GateKeepsLogIff(p, s, memoryId, PendingReview, actor, Agent, now, after);
    if s.memories[at].status == Superseded {
      ReopenedBreaksChain(p, s.memories, at, after.memories[at]);
    }
  }

  /** A row that names a successor without being superseded breaks its chain. */
  lemma ReopenedBreaksChain(p: Primitives, ms: seq<Memory>, at: nat, m: Memory)
    requires RowsOk(p, ms) && at < |ms| && ms[at].status == Superseded && SameIdentity(ms[at], m)
    requires m.status != Superseded && m.supersedesId == ms[at].supersedesId
    ensures !RowsOk(p, ms[at := m])
  {
    RankIndexes(p, ms, at);
    RankIndexes(p, ms[at := m], at);
    assert ChainOkAt(p, ms, KeyOf(p, m));
    var c := ChainOf(p, ms[at := m], KeyOf(p, m));
    assert c[Rank(p, ms[at := m], at)] == m;
    assert !ChainOkAt(p, ms[at := m], KeyOf(p, m));
  }

  // ---------------------------------------------------------------- decisions

  /** Two recorded decisions of one revision are one and the same event. */
  lemma OneDecisionPerRevision(p: Primitives, ops: seq<Op>, a: nat, b: nat)
    requires LegalRun(p, ops)
    ensures
      var s := Run(p, ops);
      var events := s.approvals + s.decisions;
      a < |events| && b < |events| && events[a].memoryId == events[b].memoryId ==> a == b
  {
    RunKeepsInv(p, ops);
    var s := Run(p, ops);
    var events := s.approvals + s.decisions;
    assert DecisionsOk(s.memories, s.approvals, s.decisions);
    if a < |events| && b < |events| && a != b {
      DecidedOnce(s.memories, s.approvals, s.decisions, if a < b then a else b, if a < b then b else a);
    }
  }

  lemma DecidedOnce(ms: seq<Memory>, approvals: seq<DecisionEvent>, decisions: seq<DecisionEvent>, i: nat, j: nat)
    requires DecisionsOk(ms, approvals, decisions) && i < j < |approvals + decisions|
    ensures (approvals + decisions)[i].memoryId != (approvals + decisions)[j].memoryId
  {
    if i >= |approvals| {
      assert decisions[i - |approvals|].memoryId != decisions[j - |approvals|].memoryId;
    } else if j >= |approvals| {
      assert approvals[i].memoryId != decisions[j - |approvals|].memoryId;
    }
  }

  /** Each request of a tenant stands for at most one event of each ledger, and every event has its
      completed reservation. */
  lemma OneEventPerRequest(p: Primitives, ops: seq<Op>)
    requires LegalRun(p, ops)
    ensures LedgerOk(Run(p, ops).approvals, Run(p, ops).approvalLedger)
    ensures LedgerOk(Run(p, ops).decisions, Run(p, ops).reviewLedger)
  {
    RunKeepsInv(p, ops);
  }

  // ---------------------------------------------------------------- judgments

  lemma RoutesAreForward(js: seq<Judgment>)
    requires JudgmentsOk(js)
    ensures forall i | 0 <= i < |js| && js[i].status == Replaced ::
      i < FindJudgment(js, js[i].supersedesId) && js[FindJudgment(js, js[i].supersedesId)].predecessorId == js[i].id
  {
    forall i | 0 <= i < |js| && js[i].status == Replaced
      ensures i < FindJudgment(js, js[i].supersedesId) && js[FindJudgment(js, js[i].supersedesId)].predecessorId == js[i].id
    {
      assert RoutedOn(js, i);
    }
  }

  /** After every run: one open proposal per tuple at most, and every replaced judgment routes to a later
      one that names it as predecessor, so following successors ends at a judgment not replaced. */
  lemma JudgmentsAreWellFormed(p: Primitives, ops: seq<Op>)
    requires LegalRun(p, ops)
    ensures
      var js := Run(p, ops).judgments;
      && (forall i, j | 0 <= i < j < |js| && js[i].status == Proposed && js[j].status == Proposed :: TupleOf(js[i]) != TupleOf(js[j]))
      && (forall i | 0 <= i < |js| && js[i].status == Replaced ::
            i < FindJudgment(js, js[i].supersedesId) && js[FindJudgment(js, js[i].supersedesId)].predecessorId == js[i].id)
      && (forall i | 0 <= i < |js| :: RoutedOn(js, i))
  {
    RunKeepsInv(p, ops);
    RoutesAreForward(Run(p, ops).judgments);
  }

  /** Between any two points of a run, each judgment keeps its subject, and its status stays or moves
      along the transition table. */
  lemma {:induction false} JudgmentsMoveForward(p: Primitives, ops: seq<Op>, n: nat)
    requires LegalRun(p, ops) && n <= |ops|
    ensures
      var js, later := Run(p, ops[..n]).judgments, Run(p, ops).judgments;
      && |js| <= |later|
      && forall i | 0 <= i < |js| ::
           SameSubject(js[i], later[i]) && (js[i].status == later[i].status || LegalMove(js[i].status, later[i].status))
    decreases |ops|
  {
    if n < |ops| {
      var shorter := ops[..|ops| - 1];
      JudgmentsMoveForward(p, shorter, n);
      assert shorter[..n] == ops[..n];
      RunKeepsInv(p, shorter);
      StepKeepsInv(p, Run(p, shorter), ops[|ops| - 1], Run(p, ops));
      var js, mid, later := Run(p, ops[..n]).judgments, Run(p, shorter).judgments, Run(p, ops).judgments;
      forall i | 0 <= i < |js|
        ensures SameSubject(js[i], later[i]) && (js[i].status == later[i].status || LegalMove(js[i].status, later[i].status))
      {
        assert SameSubject(js[i], mid[i]) && SameSubject(mid[i], later[i]);
      }
    } else {
      assert ops[..n] == ops;
    }
  }
}
