/** The receipts of a run against its other records: what is signed about a memory is exactly what happened to it. */
module StoreReceipts {
  import opened Text
  import opened Records
  import opened Lists
  import opened StoreModel
  import opened RevisionChains
  import opened StatusLog
  import opened ReceiptLog
  import opened StoreInvariants
  import opened StoreSteps
  import opened StoreRuns
  import opened StoreRows
  import opened StoreJournal

  // --------------------------------------------------------------- kinds of receipts

  /** Receipts about memories under one of these actions. */
  function Under(actions: set<string>): ReceiptPayload -> bool {
    (x: ReceiptPayload) => x.subjectType == MEMORY_SUBJECT && x.action in actions
  }

  /** Receipts about one memory under an action. */
  function About(id: string, action: string): ReceiptPayload -> bool {
    (x: ReceiptPayload) => x.subjectType == MEMORY_SUBJECT && x.subjectId == id && x.action == action
  }

  /** Receipts of authenticated rejections and returns: those of the gate carry the older version. */
  function TurningDown(): ReceiptPayload -> bool {
    (x: ReceiptPayload) =>
      x.subjectType == MEMORY_SUBJECT && x.action in {MEMORY_REJECTED, MEMORY_RETURNED} && x.version == RECEIPT_PAYLOAD_VERSION_V10
  }

  function SignedMove(): Transition -> bool {
    (t: Transition) => t.to != Approved
  }

  function EvidenceOf(): ReceiptPayload -> string { (x: ReceiptPayload) => x.evidenceRef }

  function SuccessorOf(): ReceiptPayload -> string { (x: ReceiptPayload) => x.successorId }

  /** The references that the evidence receipts of a memory carry, in order. */
  function LinkedEvidence(xs: seq<ReceiptPayload>, id: string): seq<string> {
    Mapped(Filter(xs, About(id, EVIDENCE_LINKED)), EvidenceOf())
  }

  /** The successors that the supersession receipts of a memory carry, in order. */
  function SignedSuccessors(xs: seq<ReceiptPayload>, id: string): seq<string> {
    Mapped(Filter(xs, About(id, MEMORY_SUPERSEDED)), SuccessorOf())
  }

  // --------------------------------------------------------------- what they tell

  /** Two lists that match entry by entry. */
  ghost predicate Match<A(!new), B(!new)>(xs: seq<A>, ys: seq<B>, tells: (A, B) -> bool) {
    |xs| == |ys| && forall k | 0 <= k < |xs| :: tells(xs[k], ys[k])
  }

  /** The receipt says of a decision what its event says. */
  function TellsEvent(): (ReceiptPayload, DecisionEvent) -> bool {
    (x: ReceiptPayload, e: DecisionEvent) =>
      && x.subjectId == e.memoryId && x.tenantId == e.tenantId && x.companyId == e.companyId
      && x.reviewedEnvelopeHash == e.reviewedEnvelopeHash && x.resultingEnvelopeHash == e.resultingEnvelopeHash
      && x.reason == e.reason && x.policyVersion == e.policyVersion && x.issuedAt == e.createdAt
      && PrincipalSnapshot(x.principalId, x.membershipId, x.principalRoles, x.authenticationMethod, x.assuranceLevel,
                           x.principalAuthenticatedAt) == e.principal
      && match e.toStatus
         case Approved => x.action == MEMORY_APPROVED && x.version == RECEIPT_PAYLOAD_VERSION
         case Rejected => x.action == MEMORY_REJECTED && x.version == RECEIPT_PAYLOAD_VERSION_V10
         case Returned => x.action == MEMORY_RETURNED && x.version == RECEIPT_PAYLOAD_VERSION_V10
         case _ => false
  }

  /** The receipt says of a move what the log says. */
  function TellsMove(): (ReceiptPayload, Transition) -> bool {
    (x: ReceiptPayload, t: Transition) =>
      && x.subjectId == t.memoryId && x.principalId == t.actor && x.issuedAt == t.timestamp
      && match t.to
         case Rejected => x.action == MEMORY_REJECTED
         case Returned => x.action == MEMORY_RETURNED
         case Voided => x.action == MEMORY_VOIDED
         case _ => false
  }

  /** The receipt says who recorded a row, where and when. */
  function TellsRow(): (ReceiptPayload, Memory) -> bool {
    (x: ReceiptPayload, m: Memory) =>
      && x.subjectId == m.id && x.principalId == m.source.actorId && x.issuedAt == m.recordedAt
      && x.policyVersion == KERNEL_POLICY_VERSION && x.membershipId == "" && x.principalRoles == []
      && (x.tenantId, x.companyId, x.fiscalPeriodId) ==
         match m.scope
         case Institutional => ("", "", "")
         case Company(organization, company, _, period) => (organization, company, period)
  }

  /** The entry of the log that a decision event stands for. */
  function EntryOf(e: DecisionEvent): Transition {
    Transition(e.memoryId, PendingReview, e.toStatus, e.principal.subjectId, Human, e.createdAt)
  }

  /** The receipt of a supersession is signed for the row that superseded: its actor, at the instant it was recorded. */
  ghost predicate SignedForNext(ms: seq<Memory>, x: ReceiptPayload) {
    exists next | next in ms :: next.id == x.successorId && x.principalId == next.source.actorId && x.issuedAt == next.recordedAt
  }

  ghost predicate SupersessionsSigned(ms: seq<Memory>, xs: seq<ReceiptPayload>) {
    forall x | x in xs && x.subjectType == MEMORY_SUBJECT && x.action == MEMORY_SUPERSEDED :: SignedForNext(ms, x)
  }

  const MEMORY_ACTIONS: set<string> :=
    {MEMORY_RECORDED, MEMORY_APPROVED, MEMORY_REJECTED, MEMORY_RETURNED, MEMORY_VOIDED, MEMORY_SUPERSEDED, EVIDENCE_LINKED}

  /** Everything signed about memories has its counterpart in rows, events and log, one for one and in order. */
  ghost predicate Attested(s: State) {
    && Match(Filter(s.payloads, Under({MEMORY_RECORDED})), s.memories, TellsRow())
    && Match(Filter(s.payloads, Under({MEMORY_APPROVED})), s.approvals, TellsEvent())
    && Match(Filter(s.payloads, TurningDown()), s.decisions, TellsEvent())
    && Match(Filter(s.payloads, Under({MEMORY_REJECTED, MEMORY_RETURNED, MEMORY_VOIDED})), Filter(s.transitions, SignedMove()), TellsMove())
    && (forall i | 0 <= i < |s.memories| :: RowAttested(s.payloads, s.memories[i]))
    && (forall x | x in s.payloads && x.subjectType == MEMORY_SUBJECT :: x.action in MEMORY_ACTIONS)
    && SupersessionsSigned(s.memories, s.payloads)
  }

  /** The evidence receipts of a row carry its evidence references, and one supersession receipt its successor. */
  predicate RowAttested(xs: seq<ReceiptPayload>, m: Memory) {
    && LinkedEvidence(xs, m.id) == m.evidenceRefs
    && SignedSuccessors(xs, m.id) == if m.status == Superseded then [m.supersedesId] else []
  }

  /** Every decision event has its entry in the log. */
  ghost predicate EventsLogged(s: State) {
    && (forall e | e in s.approvals :: EntryOf(e) in s.transitions)
    && (forall e | e in s.decisions :: EntryOf(e) in s.transitions)
  }

  // ------------------------------------------------------------------- appending

  lemma MatchAppends<A(!new), B(!new)>(xs: seq<A>, ys: seq<B>, dx: seq<A>, dy: seq<B>, tells: (A, B) -> bool)
    requires Match(xs, ys, tells) && Match(dx, dy, tells)
    ensures Match(xs + dx, ys + dy, tells)
  {
  }

  lemma {:induction false} MappedConcat<T, U>(a: seq<T>, b: seq<T>, f: T -> U)
    ensures Mapped(a + b, f) == Mapped(a, f) + Mapped(b, f)
  {
  }

  lemma EvidenceAppends(xs: seq<ReceiptPayload>, dx: seq<ReceiptPayload>, id: string)
    ensures LinkedEvidence(xs + dx, id) == LinkedEvidence(xs, id) + LinkedEvidence(dx, id)
    ensures SignedSuccessors(xs + dx, id) == SignedSuccessors(xs, id) + SignedSuccessors(dx, id)
  {
    hide Filter, Mapped;
    FilterConcat(xs, dx, About(id, EVIDENCE_LINKED));
    FilterConcat(xs, dx, About(id, MEMORY_SUPERSEDED));
    MappedConcat(Filter(xs, About(id, EVIDENCE_LINKED)), Filter(dx, About(id, EVIDENCE_LINKED)), EvidenceOf());
    MappedConcat(Filter(xs, About(id, MEMORY_SUPERSEDED)), Filter(dx, About(id, MEMORY_SUPERSEDED)), SuccessorOf());
  }

  /** The row takes what the new receipts say of it. */
  predicate RowTakes(dx: seq<ReceiptPayload>, a: Memory, b: Memory) {
    && b.id == a.id && b.source == a.source && b.recordedAt == a.recordedAt && b.scope == a.scope
    && b.evidenceRefs == a.evidenceRefs + LinkedEvidence(dx, a.id)
    && (if a.status == Superseded then b.status == Superseded && b.supersedesId == a.supersedesId && SignedSuccessors(dx, a.id) == []
        else SignedSuccessors(dx, a.id) == if b.status == Superseded then [b.supersedesId] else [])
  }

  /** What a step adds matches, for the rows it keeps and for those it appends. */
  ghost predicate StepAttested(s: State, after: State, d: Entries) {
    && |s.memories| <= |after.memories|
    && (forall i | 0 <= i < |s.memories| :: RowTakes(d.payloads, s.memories[i], after.memories[i]))
    && (forall i | |s.memories| <= i < |after.memories| ::
          FindMemory(s.memories, after.memories[i].id) < 0 && RowAttested(d.payloads, after.memories[i]))
    && Match(Filter(d.payloads, Under({MEMORY_RECORDED})), after.memories[|s.memories|..], TellsRow())
    && Match(Filter(d.payloads, Under({MEMORY_APPROVED})), d.approvals, TellsEvent())
    && Match(Filter(d.payloads, TurningDown()), d.decisions, TellsEvent())
    && Match(Filter(d.payloads, Under({MEMORY_REJECTED, MEMORY_RETURNED, MEMORY_VOIDED})), Filter(d.moves, SignedMove()), TellsMove())
    && (forall x | x in d.payloads && x.subjectType == MEMORY_SUBJECT :: x.action in MEMORY_ACTIONS)
    && (forall e | e in d.approvals || e in d.decisions :: EntryOf(e) in d.moves)
    && SupersessionsSigned(after.memories, d.payloads)
  }

  lemma RowsStayTold(xs: seq<ReceiptPayload>, ms: seq<Memory>, after: seq<Memory>, dx: seq<ReceiptPayload>)
    requires Match(xs, ms, TellsRow()) && |ms| <= |after| && forall i | 0 <= i < |ms| :: RowTakes(dx, ms[i], after[i])
    ensures Match(xs, after[..|ms|], TellsRow())
  {
    hide LinkedEvidence, SignedSuccessors;
    forall k | 0 <= k < |xs| ensures TellsRow()(xs[k], after[..|ms|][k]) {
      assert RowTakes(dx, ms[k], after[k]);
    }
  }

  lemma SupersessionsStaySigned(ms: seq<Memory>, after: seq<Memory>, xs: seq<ReceiptPayload>, dx: seq<ReceiptPayload>)
    requires SupersessionsSigned(ms, xs) && SupersessionsSigned(after, dx)
    requires |ms| <= |after| && forall i | 0 <= i < |ms| :: RowTakes(dx, ms[i], after[i])
    ensures SupersessionsSigned(after, xs + dx)
  {
    hide LinkedEvidence, SignedSuccessors;
    forall x | x in xs && SignedForNext(ms, x) ensures SignedForNext(after, x) {
      var next :| next in ms && next.id == x.successorId && x.principalId == next.source.actorId && x.issuedAt == next.recordedAt;
      var i :| 0 <= i < |ms| && ms[i] == next;
      assert RowTakes(dx, ms[i], after[i]) && after[i] in after;
    }
  }

  lemma RowStaysAttested(xs: seq<ReceiptPayload>, dx: seq<ReceiptPayload>, a: Memory, b: Memory)
    requires RowAttested(xs, a) && RowTakes(dx, a, b)
    ensures RowAttested(xs + dx, b)
  {
    hide LinkedEvidence, SignedSuccessors;
    EvidenceAppends(xs, dx, a.id);
  }

  /** Nothing was signed yet about a row that is not stored. */
  lemma UnknownHasNoReceipts(ms: seq<Memory>, xs: seq<ReceiptPayload>, id: string)
    requires forall i | 0 <= i < |xs| && xs[i].subjectType == MEMORY_SUBJECT :: FindMemory(ms, xs[i].subjectId) >= 0
    requires FindMemory(ms, id) < 0
    ensures LinkedEvidence(xs, id) == [] && SignedSuccessors(xs, id) == []
  {
    hide FindMemory;
    FilterNone(xs, About(id, EVIDENCE_LINKED));
    FilterNone(xs, About(id, MEMORY_SUPERSEDED));
  }

  lemma NewRowIsAttested(s: State, dx: seq<ReceiptPayload>, m: Memory)
    requires SubjectsKnown(s) && FindMemory(s.memories, m.id) < 0 && RowAttested(dx, m)
    ensures RowAttested(s.payloads + dx, m)
  {
    hide LinkedEvidence, SignedSuccessors;
    UnknownHasNoReceipts(s.memories, s.payloads, m.id);
    EvidenceAppends(s.payloads, dx, m.id);
  }

  /** Steps whose entries match keep everything attested. */
  lemma AttestedStays(p: Primitives, s: State, after: State, d: Entries)
    requires p.signing && Attested(s) && SubjectsKnown(s) && Wrote(p, s, after, d) && StepAttested(s, after, d)
    ensures Attested(after)
  {
    hide Filter, TellsRow, TellsEvent, TellsMove, Under, TurningDown, SignedMove, RowAttested, RowTakes, Match, MEMORY_ACTIONS,
         SupersessionsSigned;
    var dx := d.payloads;
    SupersessionsStaySigned(s.memories, after.memories, s.payloads, dx);
    FilterConcat(s.payloads, dx, Under({MEMORY_RECORDED}));
    FilterConcat(s.payloads, dx, Under({MEMORY_APPROVED}));
    FilterConcat(s.payloads, dx, TurningDown());
    FilterConcat(s.payloads, dx, Under({MEMORY_REJECTED, MEMORY_RETURNED, MEMORY_VOIDED}));
    FilterConcat(s.transitions, d.moves, SignedMove());
    RowsStayTold(Filter(s.payloads, Under({MEMORY_RECORDED})), s.memories, after.memories, dx);
    assert after.memories == after.memories[..|s.memories|] + after.memories[|s.memories|..];
    MatchAppends(Filter(s.payloads, Under({MEMORY_RECORDED})), after.memories[..|s.memories|],
                 Filter(dx, Under({MEMORY_RECORDED})), after.memories[|s.memories|..], TellsRow());
    MatchAppends(Filter(s.payloads, Under({MEMORY_APPROVED})), s.approvals, Filter(dx, Under({MEMORY_APPROVED})), d.approvals, TellsEvent());
    MatchAppends(Filter(s.payloads, TurningDown()), s.decisions, Filter(dx, TurningDown()), d.decisions, TellsEvent());
    MatchAppends(Filter(s.payloads, Under({MEMORY_REJECTED, MEMORY_RETURNED, MEMORY_VOIDED})), Filter(s.transitions, SignedMove()),
                 Filter(dx, Under({MEMORY_REJECTED, MEMORY_RETURNED, MEMORY_VOIDED})), Filter(d.moves, SignedMove()), TellsMove());
    forall i | 0 <= i < |after.memories| ensures RowAttested(after.payloads, after.memories[i]) {
      if i < |s.memories| {
        RowStaysAttested(s.payloads, dx, s.memories[i], after.memories[i]);
      } else {
        NewRowIsAttested(s, dx, after.memories[i]);
      }
    }
  }

  // ------------------------------------------------------------------ operations

  lemma ActionsDiffer()
    ensures MEMORY_RECORDED !in {MEMORY_APPROVED, MEMORY_REJECTED, MEMORY_RETURNED, MEMORY_VOIDED, MEMORY_SUPERSEDED, EVIDENCE_LINKED}
    ensures MEMORY_APPROVED !in {MEMORY_REJECTED, MEMORY_RETURNED, MEMORY_VOIDED, MEMORY_SUPERSEDED, EVIDENCE_LINKED}
    ensures MEMORY_REJECTED !in {MEMORY_RETURNED, MEMORY_VOIDED, MEMORY_SUPERSEDED, EVIDENCE_LINKED}
    ensures MEMORY_RETURNED !in {MEMORY_VOIDED, MEMORY_SUPERSEDED, EVIDENCE_LINKED}
    ensures MEMORY_VOIDED !in {MEMORY_SUPERSEDED, EVIDENCE_LINKED} && MEMORY_SUPERSEDED != EVIDENCE_LINKED
    ensures RECEIPT_PAYLOAD_VERSION != RECEIPT_PAYLOAD_VERSION_V10 && MEMORY_SUBJECT != JUDGMENT_SUBJECT
  {
    assert MEMORY_RECORDED[7] == 'r' && MEMORY_RECORDED[9] == 'c';
    assert MEMORY_REJECTED[7] == 'r' && MEMORY_REJECTED[9] == 'j';
    assert MEMORY_RETURNED[7] == 'r' && MEMORY_RETURNED[9] == 't';
    assert MEMORY_APPROVED[7] == 'a' && MEMORY_APPROVED[0] == 'm' && EVIDENCE_LINKED[0] == 'e';
    assert MEMORY_RECORDED[0] == 'm' && MEMORY_REJECTED[0] == 'm' && MEMORY_RETURNED[0] == 'm';
    assert |MEMORY_VOIDED| == 13 && |MEMORY_SUPERSEDED| == 17 && |EVIDENCE_LINKED| == 15;
    assert |MEMORY_RECORDED| == 15 && |MEMORY_REJECTED| == 15 && |MEMORY_RETURNED| == 15 && |MEMORY_APPROVED| == 15;
    assert |RECEIPT_PAYLOAD_VERSION| != |RECEIPT_PAYLOAD_VERSION_V10| && |MEMORY_SUBJECT| != |JUDGMENT_SUBJECT|;
  }

  /** Receipts about other rows say nothing of this one. */
  lemma OthersAreSilent(dx: seq<ReceiptPayload>, id: string)
    requires forall x | x in dx :: x.subjectId != id || x.subjectType != MEMORY_SUBJECT
    ensures LinkedEvidence(dx, id) == [] && SignedSuccessors(dx, id) == []
  {
    FilterNone(dx, About(id, EVIDENCE_LINKED));
    FilterNone(dx, About(id, MEMORY_SUPERSEDED));
  }

  /** What one receipt about a row says of its evidence and its successor. */
  lemma OneReceipt(x: ReceiptPayload)
    requires x.subjectType == MEMORY_SUBJECT
    ensures LinkedEvidence([x], x.subjectId) == if x.action == EVIDENCE_LINKED then [x.evidenceRef] else []
    ensures SignedSuccessors([x], x.subjectId) == if x.action == MEMORY_SUPERSEDED then [x.successorId] else []
  {
    FilterOne(x, About(x.subjectId, EVIDENCE_LINKED));
    FilterOne(x, About(x.subjectId, MEMORY_SUPERSEDED));
  }

  /** The entries of a step match, but for its rows. */
  ghost predicate EntriesMatch(d: Entries, rows: seq<Memory>) {
    && Match(Filter(d.payloads, Under({MEMORY_RECORDED})), rows, TellsRow())
    && Match(Filter(d.payloads, Under({MEMORY_APPROVED})), d.approvals, TellsEvent())
    && Match(Filter(d.payloads, TurningDown()), d.decisions, TellsEvent())
    && Match(Filter(d.payloads, Under({MEMORY_REJECTED, MEMORY_RETURNED, MEMORY_VOIDED})), Filter(d.moves, SignedMove()), TellsMove())
    && (forall x | x in d.payloads && x.subjectType == MEMORY_SUBJECT :: x.action in MEMORY_ACTIONS)
    && (forall e | e in d.approvals || e in d.decisions :: EntryOf(e) in d.moves)
  }

  /** A step that rewrites one row, and signs at most about it. */
  lemma RewriteAttested(s: State, after: State, d: Entries, at: nat, m: Memory)
    requires DistinctIds(s.memories) && at < |s.memories| && after.memories == s.memories[at := m]
    requires forall x | x in d.payloads ::
      x.subjectType == MEMORY_SUBJECT && x.subjectId == s.memories[at].id && x.action != MEMORY_SUPERSEDED
    requires RowTakes(d.payloads, s.memories[at], m) && EntriesMatch(d, [])
    ensures StepAttested(s, after, d)
  {
    hide Match, LinkedEvidence, SignedSuccessors, Filter, MEMORY_ACTIONS;
    forall i | 0 <= i < |s.memories| ensures RowTakes(d.payloads, s.memories[i], after.memories[i]) {
      if i != at {
        OthersAreSilent(d.payloads, s.memories[i].id);
      }
    }
    assert after.memories[|s.memories|..] == [];
  }

  /** A step that signs about no memory and leaves rows, moves and decisions alone. */
  lemma NothingAttested(s: State, after: State, d: Entries)
    requires after.memories == s.memories && d.moves == [] && d.approvals == [] && d.decisions == []
    requires forall x | x in d.payloads :: x.subjectType != MEMORY_SUBJECT
    ensures StepAttested(s, after, d)
  {
    hide LinkedEvidence, SignedSuccessors;
    FilterNone(d.payloads, Under({MEMORY_RECORDED}));
    FilterNone(d.payloads, Under({MEMORY_APPROVED}));
    FilterNone(d.payloads, TurningDown());
    FilterNone(d.payloads, Under({MEMORY_REJECTED, MEMORY_RETURNED, MEMORY_VOIDED}));
    forall i | 0 <= i < |s.memories| ensures RowTakes(d.payloads, s.memories[i], after.memories[i]) {
      OthersAreSilent(d.payloads, s.memories[i].id);
    }
    assert after.memories[|s.memories|..] == [];
  }

  /** One receipt matches what is written beside it. */
  lemma OneMatches<B(!new)>(x: ReceiptPayload, keep: ReceiptPayload -> bool, ys: seq<B>, tells: (ReceiptPayload, B) -> bool)
    requires if keep(x) then |ys| == 1 && tells(x, ys[0]) else ys == []
    ensures Match(Filter([x], keep), ys, tells)
  {
    FilterOne(x, keep);
  }

  /** How the entries of one receipt sort. */
  lemma OneEntryMatches(d: Entries, x: ReceiptPayload)
    requires d.payloads == [x] && x.subjectType == MEMORY_SUBJECT && x.action in MEMORY_ACTIONS
    requires if x.action == MEMORY_APPROVED then |d.approvals| == 1 && TellsEvent()(x, d.approvals[0]) else d.approvals == []
    requires if x.action in {MEMORY_REJECTED, MEMORY_RETURNED} && x.version == RECEIPT_PAYLOAD_VERSION_V10
             then |d.decisions| == 1 && TellsEvent()(x, d.decisions[0]) else d.decisions == []
    requires
      var moves := Filter(d.moves, SignedMove());
      if x.action in {MEMORY_REJECTED, MEMORY_RETURNED, MEMORY_VOIDED} then |moves| == 1 && TellsMove()(x, moves[0]) else moves == []
    requires x.action != MEMORY_RECORDED
    requires forall e | e in d.approvals || e in d.decisions :: EntryOf(e) in d.moves
    ensures EntriesMatch(d, [])
  {
    hide TellsEvent, TellsMove, Match, Filter;
    var none: seq<Memory> := [];
    OneMatches(x, Under({MEMORY_RECORDED}), none, TellsRow());
    OneMatches(x, Under({MEMORY_APPROVED}), d.approvals, TellsEvent());
    OneMatches(x, TurningDown(), d.decisions, TellsEvent());
    OneMatches(x, Under({MEMORY_REJECTED, MEMORY_RETURNED, MEMORY_VOIDED}), Filter(d.moves, SignedMove()), TellsMove());
  }

  lemma GateAttested(p: Primitives, s: State, memoryId: string, to: Status, actor: string, actorKind: ActorKind, now: string,
                     after: State) returns (d: Entries)
    requires DistinctIds(s.memories) && GateTarget(to) && after == GateStep(p, s, memoryId, to, actor, actorKind, now).0
    ensures Wrote(p, s, after, d) && StepAttested(s, after, d)
  {
    hide LinkedEvidence, SignedSuccessors, EntriesMatch, StepAttested, GateStep, Envelope;
    d := GateWrites(p, s, memoryId, to, actor, actorKind, now, after);
    ActionsDiffer();
    var at := FindMemory(s.memories, memoryId);
    if at >= 0 && GateAllows(s.memories[at].status, to, actorKind) {
      var m := WithStatus(p, s.memories[at], to);
      if to == Approved {
        OthersAreSilent([], s.memories[at].id);
        UnsignedMatches(d);
      } else {
        var x := TransitionPayload(p, s.memories[at], m, actor, now);
        OneReceipt(x);
        FilterOne(d.moves[0], SignedMove());
        OneEntryMatches(d, x);
      }
      RewriteAttested(s, after, d, at, m);
    } else {
      NothingAttested(s, after, d);
    }
  }

  /** An approval through the gate is logged and not signed. */
  lemma UnsignedMatches(d: Entries)
    requires d.payloads == [] && d.approvals == [] && d.decisions == []
    requires forall t | t in d.moves :: t.to == Approved
    ensures EntriesMatch(d, [])
  {
    FilterNone(d.moves, SignedMove());
    FilterNone(d.payloads, Under({MEMORY_RECORDED}));
    FilterNone(d.payloads, Under({MEMORY_APPROVED}));
    FilterNone(d.payloads, TurningDown());
    FilterNone(d.payloads, Under({MEMORY_REJECTED, MEMORY_RETURNED, MEMORY_VOIDED}));
  }

  lemma LinkAttested(p: Primitives, s: State, kind: LinkKind, memoryId: string, ref: string, actor: string, now: string,
                     after: State) returns (d: Entries)
    requires DistinctIds(s.memories) && after == LinkStep(p, s, kind, memoryId, ref, actor, now).0
    ensures Wrote(p, s, after, d) && StepAttested(s, after, d)
  {
    hide LinkedEvidence, SignedSuccessors, EntriesMatch, StepAttested, LinkStep, Envelope, Blank;
    d := LinkWrites(p, s, kind, memoryId, ref, actor, now, after);
    ActionsDiffer();
    var at := FindMemory(s.memories, memoryId);
    if !Blank(ref) && at >= 0 && ref !in RefsOf(s.memories[at], kind) {
      var m := Linked(p, s.memories[at], kind, ref);
      if kind.RuleLink? {
        OthersAreSilent([], s.memories[at].id);
        UnsignedMatches(d);
      } else {
        var x := LinkedPayload(p, s.memories[at], m, ref, actor, now);
        OneReceipt(x);
        OneEntryMatches(d, x);
      }
      RewriteAttested(s, after, d, at, m);
    } else {
      NothingAttested(s, after, d);
    }
  }

  /** The receipt of a decision says what its event and its log entry say. */
  lemma DecisionTells(p: Primitives, c: ApproveCommand, who: Principal, before: Memory, to: Status, policyVersion: string,
                      eventId: string, now: string)
    requires before.scope.Company? && (to == Approved || to == Rejected || to == Returned)
    ensures
      var m := WithStatus(p, before, to);
      var x, e := DecidedPayload(p, c, who, before, m, policyVersion, now), EventFor(p, c, who, before, m, policyVersion, eventId, now);
      && TellsEvent()(x, e) && (to != Approved ==> TellsMove()(x, Transition(before.id, before.status, to, who.subjectId, Human, now)))
      && x.subjectType == MEMORY_SUBJECT && x.subjectId == before.id
      && x.action == (match to case Approved => MEMORY_APPROVED case Returned => MEMORY_RETURNED case _ => MEMORY_REJECTED)
      && (to != Approved ==> x.version == RECEIPT_PAYLOAD_VERSION_V10)
      && (before.status == PendingReview ==> EntryOf(e) == Transition(before.id, before.status, to, who.subjectId, Human, now))
  {
    hide Envelope;
  }

  lemma DecisionAttested(p: Primitives, s: State, after: State, d: Entries, at: nat, to: Status, c: ApproveCommand,
                         who: Principal, policyVersion: string, eventId: string, now: string)
    requires DistinctIds(s.memories) && at < |s.memories| && s.memories[at].scope.Company? && s.memories[at].status == PendingReview
    requires to == Approved || to == Rejected || to == Returned
    requires
      var before, m := s.memories[at], WithStatus(p, s.memories[at], to);
      var e := EventFor(p, c, who, before, m, policyVersion, eventId, now);
      && after.memories == s.memories[at := m]
      && d == Entries([Transition(before.id, before.status, to, who.subjectId, Human, now)],
                      if to == Approved then [e] else [], if to == Approved then [] else [e],
                      [DecidedPayload(p, c, who, before, m, policyVersion, now)])
    ensures StepAttested(s, after, d)
  {
    hide LinkedEvidence, SignedSuccessors, EntriesMatch, StepAttested, Envelope, DecidedPayload, EventFor, TellsEvent, TellsMove;
    ActionsDiffer();
    DecisionTells(p, c, who, s.memories[at], to, policyVersion, eventId, now);
    var x := d.payloads[0];
    OneReceipt(x);
    FilterOne(d.moves[0], SignedMove());
    OneEntryMatches(d, x);
    RewriteAttested(s, after, d, at, WithStatus(p, s.memories[at], to));
  }

  // ------------------------------------------------------------------------ saves

  /** The row that a save supersedes, -1 for none. */
  function GivesWayAt(p: Primitives, s: State, m: Memory): (at: int)
    ensures -1 <= at < |s.memories|
  {
    var at := LatestAt(p, s.memories, KeyOf(p, m));
    if at >= 0 && CanVoid(s.memories[at].status) then at else -1
  }

  /** Receipts of another kind before the one that matches do not matter. */
  lemma LastMatches<B(!new)>(priors: seq<ReceiptPayload>, x: ReceiptPayload, keep: ReceiptPayload -> bool, ys: seq<B>,
                             tells: (ReceiptPayload, B) -> bool)
    requires forall y | y in priors :: !keep(y)
    requires if keep(x) then |ys| == 1 && tells(x, ys[0]) else ys == []
    ensures Match(Filter(priors + [x], keep), ys, tells)
  {
    FilterNone(priors, keep);
    FilterConcat(priors, [x], keep);
    OneMatches(x, keep, ys, tells);
    assert Filter(priors + [x], keep) == Filter([x], keep);
  }

  lemma SaveEntriesMatch(p: Primitives, m: Memory, priors: seq<ReceiptPayload>, d: Entries)
    requires d == Entries([], [], [], priors + [RecordedPayload(p, m)])
    requires forall x | x in priors :: x.subjectType == MEMORY_SUBJECT && x.action == MEMORY_SUPERSEDED
    ensures EntriesMatch(d, [m])
  {
    hide Filter, Envelope, Match;
    ActionsDiffer();
    var x := RecordedPayload(p, m);
    var rows := [m];
    var none: seq<DecisionEvent> := [];
    var still: seq<Transition> := [];
    FilterNone(still, SignedMove());
    LastMatches(priors, x, Under({MEMORY_RECORDED}), rows, TellsRow());
    LastMatches(priors, x, Under({MEMORY_APPROVED}), none, TellsEvent());
    LastMatches(priors, x, TurningDown(), none, TellsEvent());
    LastMatches(priors, x, Under({MEMORY_REJECTED, MEMORY_RETURNED, MEMORY_VOIDED}), still, TellsMove());
  }

  lemma NewRowsEntries(p: Primitives, m: Memory, priors: seq<ReceiptPayload>)
    requires m.evidenceRefs == [] && m.status != Superseded
    requires forall x | x in priors :: x.subjectId != m.id
    ensures RowAttested(priors + [RecordedPayload(p, m)], m)
  {
    hide LinkedEvidence, SignedSuccessors, Envelope;
    ActionsDiffer();
    OthersAreSilent(priors, m.id);
    OneReceipt(RecordedPayload(p, m));
    EvidenceAppends(priors, [RecordedPayload(p, m)], m.id);
  }

  lemma SupersededRowTakes(p: Primitives, prior: Memory, m: Memory)
    requires prior.status != Superseded && prior.id != m.id
    ensures RowTakes([SupersededPayload(p, prior, Replacing(prior, m), m), RecordedPayload(p, m)], prior, Replacing(prior, m))
  {
    hide LinkedEvidence, SignedSuccessors, Envelope;
    ActionsDiffer();
    var x, y := SupersededPayload(p, prior, Replacing(prior, m), m), RecordedPayload(p, m);
    OneReceipt(x);
    OthersAreSilent([y], prior.id);
    EvidenceAppends([x], [y], prior.id);
    assert [x] + [y] == [x, y];
  }

  lemma UntouchedRowTakes(dx: seq<ReceiptPayload>, m: Memory)
    requires forall x | x in dx :: x.subjectId != m.id
    ensures RowTakes(dx, m, m)
  {
    OthersAreSilent(dx, m.id);
  }

  lemma SaveAttested(p: Primitives, s: State, m: Memory, after: State) returns (d: Entries)
    requires DistinctIds(s.memories) && FindMemory(s.memories, m.id) < 0 && after == SaveState(p, s, m)
    requires m.evidenceRefs == [] && m.status != Superseded
    ensures Wrote(p, s, after, d) && StepAttested(s, after, d)
  {
    hide SaveState, RowTakes, RowAttested, Filter, Match, RecordedPayload, MEMORY_ACTIONS;
    d := SaveWrites(p, s, m, after);
    var at := GivesWayAt(p, s, m);
    var priors := if at >= 0 then [SupersededPayload(p, s.memories[at], Replacing(s.memories[at], m), m)] else [];
    assert d.payloads == priors + [RecordedPayload(p, m)];
    SavedRowsTake(p, s, m, after, at, d.payloads);
    SaveEntriesMatch(p, m, priors, d);
    NewRowsEntries(p, m, priors);
    assert after.memories[|s.memories|..] == [m];
    SavedIsSigned(p, m, after.memories, priors);
  }

  lemma SavedIsSigned(p: Primitives, m: Memory, ms: seq<Memory>, priors: seq<ReceiptPayload>)
    requires ms != [] && ms[|ms| - 1] == m
    requires forall x | x in priors :: x.successorId == m.id && x.principalId == m.source.actorId && x.issuedAt == m.recordedAt
    ensures SupersessionsSigned(ms, priors + [RecordedPayload(p, m)])
  {
    ActionsDiffer();
    assert m in ms;
  }

  lemma SavedRowsTake(p: Primitives, s: State, m: Memory, after: State, at: int, dx: seq<ReceiptPayload>)
    requires DistinctIds(s.memories) && FindMemory(s.memories, m.id) < 0 && after.memories == Saved(p, s.memories, m)
    requires at == GivesWayAt(p, s, m)
    requires dx == (if at >= 0 then [SupersededPayload(p, s.memories[at], Replacing(s.memories[at], m), m)] else []) + [RecordedPayload(p, m)]
    ensures |after.memories| == |s.memories| + 1 && after.memories[|s.memories|] == m
    ensures forall i | 0 <= i < |s.memories| :: RowTakes(dx, s.memories[i], after.memories[i])
  {
    hide RowTakes;
    forall i | 0 <= i < |s.memories| ensures RowTakes(dx, s.memories[i], after.memories[i]) {
      if i == at {
        assert dx == [SupersededPayload(p, s.memories[at], Replacing(s.memories[at], m), m), RecordedPayload(p, m)];
        SupersededRowTakes(p, s.memories[at], m);
      } else {
        UntouchedRowTakes(dx, s.memories[i]);
      }
    }
  }

  // ------------------------------------------------------------------------- runs

  lemma StepAttests(p: Primitives, s: State, op: Op) returns (d: Entries)
    requires Inv(p, s) && LegalOp(s, op)
    ensures Wrote(p, s, Step(p, s, op), d) && StepAttested(s, Step(p, s, op), d)
  {
    hide StepAttested, Inv, GateStep, LinkStep, ApprovalCheck, ReviewCheck, CommitApproval, CommitReview, SaveState;
    var after := Step(p, s, op);
    RowsOfInv(p, s);
    if !MemoryOp(op) {
      d := JudgmentOpWrites(p, s, op);
      ActionsDiffer();
      NothingAttested(s, after, d);
    } else {
      match op
      case Save(input, id, now) =>
        if SaveRefusal(p, s, input, now).None? {
          d := SaveAttested(p, s, RevisionFor(p, s, input, id, now), after);
        } else {
          d := UnchangedAttested(p, s);
        }
      case Gate(memoryId, to, actor, actorKind, now) => d := GateAttested(p, s, memoryId, to, actor, actorKind, now, after);
      case Link(kind, memoryId, ref, actor, now) => d := LinkAttested(p, s, kind, memoryId, ref, actor, now, after);
      case Approve(c, who, policy, eventId, now) => d := ApproveAttested(p, s, c, who, policy, eventId, now, after);
      case Review(c, who, decision, eventId, now) => d := ReviewAttested(p, s, c, who, decision, eventId, now, after);
    }
  }

  lemma RowsOfInv(p: Primitives, s: State)
    requires Inv(p, s)
    ensures DistinctIds(s.memories) && SubjectsKnown(s)
  {
  }

  lemma UnchangedAttested(p: Primitives, s: State) returns (d: Entries)
    ensures Wrote(p, s, s, d) && StepAttested(s, s, d)
  {
    d := NOTHING;
    NothingAttested(s, s, d);
  }

  lemma ApproveAttested(p: Primitives, s: State, c: ApproveCommand, who: Principal, policy: ApprovalPolicy, eventId: string,
                        now: string, after: State) returns (d: Entries)
    requires DistinctIds(s.memories) && after == ApproveStep(p, s, c, who, policy, eventId, now).0
    ensures Wrote(p, s, after, d) && StepAttested(s, after, d)
  {
    hide StepAttested, ApprovalCheck, CommitApproval, EventFor, DecidedPayload, LedgerKey, Blank;
    if after == s {
      d := UnchangedAttested(p, s);
    } else {
      var (at, policyVersion) := ApprovalCheck(p, s, c, who, policy).value;
      d := ApprovalWrites(p, s, at, c, who, policyVersion, eventId, now);
      DecisionAttested(p, s, after, d, at, Approved, c, who, policyVersion, eventId, now);
    }
  }

  lemma ReviewAttested(p: Primitives, s: State, c: ApproveCommand, who: Principal, decision: Decision, eventId: string,
                       now: string, after: State) returns (d: Entries)
    requires DistinctIds(s.memories) && after == ReviewStep(p, s, c, who, decision, eventId, now).0
    ensures Wrote(p, s, after, d) && StepAttested(s, after, d)
  {
    hide StepAttested, ReviewCheck, CommitReview, EventFor, DecidedPayload, LedgerKey, Blank;
    if after == s {
      d := UnchangedAttested(p, s);
    } else {
      var at := ReviewCheck(p, s, c, who, decision).value;
      d := ReviewWrites(p, s, at, c, who, decision, eventId, now);
      DecisionAttested(p, s, after, d, at, StatusOf(decision), c, who, KERNEL_POLICY_VERSION, eventId, now);
    }
  }

  lemma NothingToAttest()
    ensures Attested(EMPTY)
  {
  }

  /** With a signer, what is signed about memories in a run is exactly what its rows, decision events and log say, one
      for one and in order: each row was recorded once, each approval event and each rejection or return signed once,
      each move but approvals signed once, each evidence reference once and each supersession once. */
  lemma {:induction false} RunsAreAttested(p: Primitives, ops: seq<Op>)
    requires LegalRun(p, ops) && p.signing
    ensures Attested(Run(p, ops))
  {
    hide Attested, Step, LegalOp, Inv, StepAttested;
    if ops == [] {
      NothingToAttest();
    } else {
      var shorter := ops[..|ops| - 1];
      var s := Run(p, shorter);
      RunsAreAttested(p, shorter);
      RunKeepsInv(p, shorter);
      RowsOfInv(p, s);
      var d := StepAttests(p, s, ops[|ops| - 1]);
      AttestedStays(p, s, Run(p, ops), d);
    }
  }

  /** Every decision event has its entry in the log: a human's move of the pending row, by the event's principal at the
      event's instant. */
  lemma {:induction false} EventsAreLogged(p: Primitives, ops: seq<Op>)
    requires LegalRun(p, ops)
    ensures EventsLogged(Run(p, ops))
  {
    hide Step, LegalOp, Inv, EntryOf, Match, RowTakes, RowAttested, Filter;
    if ops != [] {
      var shorter := ops[..|ops| - 1];
      var s := Run(p, shorter);
      EventsAreLogged(p, shorter);
      RunKeepsInv(p, shorter);
      var d := StepAttests(p, s, ops[|ops| - 1]);
    }
  }
}
