/** Envelope continuity: which operations hand a memory's envelope from receipt to receipt, and
    which two break the line. */
module StoreContinuity {
  import opened Text
  import opened Records
  import opened StoreModel
  import opened RevisionChains
  import opened StatusLog
  import opened ReceiptLog
  import opened StoreInvariants
  import opened StoreSteps

  lemma OthersDiffer(ms: seq<Memory>, at: nat)
    requires DistinctIds(ms) && at < |ms|
    ensures forall i | 0 <= i < |ms| && i != at :: ms[i].id != ms[at].id
  {
  }

  lemma SupersedeKeepsContinuous(p: Primitives, s: State, at: nat, m: Memory, after: State)
    requires MemoryInv(p, s) && NonEmptyEnvelopes(p) && Continuous(p, s)
    requires at < |s.memories| && FindMemory(s.memories, m.id) < 0
    requires after.memories == s.memories[at := Replacing(s.memories[at], m)] + [m]
    requires p.signing ==>
      after.payloads == s.payloads + [SupersededPayload(p, s.memories[at], Replacing(s.memories[at], m), m)] + [RecordedPayload(p, m)]
    ensures Continuous(p, after)
  {
    var ms, superseded := s.memories, Replacing(s.memories[at], m);
    var payload := SupersededPayload(p, ms[at], superseded, m);
    var mid := s.(memories := ms[at := superseded], payloads := s.payloads + [payload]);
    OthersDiffer(ms, at);
    MoveKeepsContinuous(p, s, at, superseded, payload, mid);
    UnknownCommitsNothing(ms, s.payloads, m.id);
    CommittedAppend(s.payloads, payload, m.id);
    RecordKeepsContinuous(p, mid, m, RecordedPayload(p, m), after);
  }

  lemma RevisionKeepsContinuous(p: Primitives, s: State, m: Memory, after: State)
    requires MemoryInv(p, s) && NonEmptyEnvelopes(p) && Continuous(p, s)
    requires FreshRevision(p, s, m) && after == SaveState(p, s, m)
    ensures Continuous(p, after)
  {
    hide Continuous, NonEmptyEnvelopes;
    var at := LatestAt(p, s.memories, KeyOf(p, m));
    if at >= 0 && CanVoid(s.memories[at].status) {
      SupersedeKeepsContinuous(p, s, at, m, after);
    } else {
      UnknownCommitsNothing(s.memories, s.payloads, m.id);
      RecordKeepsContinuous(p, s, m, RecordedPayload(p, m), after);
    }
  }

  /** An act on row `at` with the receipt that covers it keeps the line. */
  lemma CoveredActKeepsContinuous(p: Primitives, s: State, at: nat, m: Memory, payload: ReceiptPayload, s1: State)
    requires MemoryInv(p, s) && NonEmptyEnvelopes(p) && Continuous(p, s)
    requires at < |s.memories| && m.id == s.memories[at].id && s1.memories == s.memories[at := m]
    requires s1.payloads == s.payloads
    requires AboutMemory(payload, m.id) && StartsAt(payload) == Envelope(p, s.memories[at])
    requires payload.resultingEnvelopeHash == Envelope(p, m) ||
             (payload.resultingEnvelopeHash == "" && payload.toEnvelopeHash == Envelope(p, m))
    ensures Continuous(p, Emit(p, s1, payload))
  {
    OthersDiffer(s.memories, at);
    MoveKeepsContinuous(p, s, at, m, payload, Emit(p, s1, payload));
  }

  /** An act on row `at` without a receipt keeps the line exactly when the row's envelope stays the same. */
  lemma UncoveredActIff(p: Primitives, s: State, at: nat, m: Memory, after: State)
    requires MemoryInv(p, s) && Continuous(p, s) && p.signing
    requires at < |s.memories| && m.id == s.memories[at].id && after.memories == s.memories[at := m]
    requires after.payloads == s.payloads
    ensures Continuous(p, after) <==> Envelope(p, m) == Envelope(p, s.memories[at])
  {
    assert HeadCommits(p, s.payloads, s.memories[at]);
    assert after.memories[at] == m;
    if Envelope(p, m) == Envelope(p, s.memories[at]) {
      forall i | 0 <= i < |after.memories| ensures HeadCommits(p, after.payloads, after.memories[i]) {
        assert HeadCommits(p, s.payloads, s.memories[i]);
      }
    } else {
      assert !HeadCommits(p, after.payloads, after.memories[at]);
    }
  }

  lemma GateContinuity(p: Primitives, s: State, memoryId: string, to: Status, actor: string, actorKind: ActorKind,
                       timestamp: string, after: State)
    requires MemoryInv(p, s) && NonEmptyEnvelopes(p) && Continuous(p, s) && p.signing && GateTarget(to)
    requires after == GateStep(p, s, memoryId, to, actor, actorKind, timestamp).0
    ensures Continuous(p, after) <==> !GateBreaks(p, s, memoryId, to, actorKind)
  {
    var at := FindMemory(s.memories, memoryId);
    if at >= 0 && GateAllows(s.memories[at].status, to, actorKind) {
      var before := s.memories[at];
      var m := WithStatus(p, before, to);
      var t := Transition(memoryId, before.status, to, actor, actorKind, timestamp);
      var s1 := s.(memories := s.memories[at := m], transitions := s.transitions + [t]);
      if to == Approved {
        UncoveredActIff(p, s, at, m, after);
      } else {
        CoveredActKeepsContinuous(p, s, at, m, TransitionPayload(p, before, m, actor, timestamp), s1);
      }
    }
  }

  /** The gate approves a row, which no receipt covers, and the row's envelope shows it. */
  predicate GateBreaks(p: Primitives, s: State, memoryId: string, to: Status, actorKind: ActorKind) {
    var at := FindMemory(s.memories, memoryId);
    at >= 0 && to == Approved && GateAllows(s.memories[at].status, to, actorKind) &&
    Envelope(p, WithStatus(p, s.memories[at], to)) != Envelope(p, s.memories[at])
  }

  /** A new rule link, which no receipt covers, and the row's envelope shows it. */
  predicate LinkBreaks(p: Primitives, s: State, kind: LinkKind, memoryId: string, ref: string) {
    var at := FindMemory(s.memories, memoryId);
    at >= 0 && kind.RuleLink? && !Blank(ref) && ref !in s.memories[at].ruleRefs &&
    Envelope(p, Linked(p, s.memories[at], kind, ref)) != Envelope(p, s.memories[at])
  }

  lemma LinkContinuity(p: Primitives, s: State, kind: LinkKind, memoryId: string, ref: string, actor: string,
                       now: string, after: State)
    requires MemoryInv(p, s) && NonEmptyEnvelopes(p) && Continuous(p, s) && p.signing
    requires after == LinkStep(p, s, kind, memoryId, ref, actor, now).0
    ensures Continuous(p, after) <==> !LinkBreaks(p, s, kind, memoryId, ref)
  {
    var at := FindMemory(s.memories, memoryId);
    if !Blank(ref) && at >= 0 && ref !in RefsOf(s.memories[at], kind) {
      var before := s.memories[at];
      var m := Linked(p, before, kind, ref);
      if kind.RuleLink? {
        UncoveredActIff(p, s, at, m, after);
      } else {
        CoveredActKeepsContinuous(p, s, at, m, LinkedPayload(p, before, m, ref, actor, now), s.(memories := s.memories[at := m]));
      }
    }
  }

  lemma DecideKeepsContinuous(p: Primitives, s: State, at: nat, to: Status, c: ApproveCommand, who: Principal,
                              policyVersion: string, now: string, decided: State)
    requires MemoryInv(p, s) && NonEmptyEnvelopes(p) && Continuous(p, s)
    requires at < |s.memories| && s.memories[at].status == PendingReview && decided == Decide(p, s, at, to, c, who, policyVersion, now)
    ensures Continuous(p, decided)
  {
    var before := s.memories[at];
    var m := WithStatus(p, before, to);
    var t := Transition(before.id, PendingReview, to, who.subjectId, Human, now);
    CoveredActKeepsContinuous(p, s, at, m, DecidedPayload(p, c, who, before, m, policyVersion, now),
                              s.(memories := s.memories[at := m], transitions := s.transitions + [t]));
  }

  lemma ApproveKeepsContinuous(p: Primitives, s: State, c: ApproveCommand, who: Principal, policy: ApprovalPolicy,
                               eventId: string, now: string, after: State)
    requires MemoryInv(p, s) && NonEmptyEnvelopes(p) && Continuous(p, s)
    requires after == ApproveStep(p, s, c, who, policy, eventId, now).0
    ensures Continuous(p, after)
  {
    var check := ApprovalCheck(p, s, c, who, policy);
    if after != s && check.Ok? {
      var (at, policyVersion) := check.value;
      var decided := Decide(p, s, at, Approved, c, who, policyVersion, now);
      DecideKeepsContinuous(p, s, at, Approved, c, who, policyVersion, now, decided);
      assert after.memories == decided.memories && after.payloads == decided.payloads;
    }
  }

  lemma ReviewKeepsContinuous(p: Primitives, s: State, c: ApproveCommand, who: Principal, d: Decision,
                              eventId: string, now: string, after: State)
    requires MemoryInv(p, s) && NonEmptyEnvelopes(p) && Continuous(p, s)
    requires after == ReviewStep(p, s, c, who, d, eventId, now).0
    ensures Continuous(p, after)
  {
    hide MemoryInv, Decide, ReviewCheck, NonEmptyEnvelopes;
    var check := ReviewCheck(p, s, c, who, d);
    if after != s && check.Ok? {
      var decided := Decide(p, s, check.value, StatusOf(d), c, who, KERNEL_POLICY_VERSION, now);
      DecideKeepsContinuous(p, s, check.value, StatusOf(d), c, who, KERNEL_POLICY_VERSION, now, decided);
      assert after.memories == decided.memories && after.payloads == decided.payloads;
    }
  }
}
