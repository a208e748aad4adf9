/** What the records of a run say about its judgments: their events tell their lives, and each verdict is signed once. */
module StoreJudgments {
  import opened Text
  import opened Records
  import opened Lists
  import opened StoreModel
  import opened JudgmentModel
  import opened JudgmentChains
  import opened StoreInvariants
  import opened StoreSteps
  import opened StoreRuns
  import opened StoreJournal

  function OfJudgment(id: string): JudgmentEvent -> bool {
    (e: JudgmentEvent) => e.judgmentId == id
  }

  function AboutJudgment(id: string): ReceiptPayload -> bool {
    (x: ReceiptPayload) => x.subjectType == JUDGMENT_SUBJECT && x.subjectId == id
  }

  /** The events of a judgment, in order. */
  function EventsOf(es: seq<JudgmentEvent>, id: string): seq<JudgmentEvent> {
    Filter(es, OfJudgment(id))
  }

  /** The receipts of a judgment, in order. */
  function ReceiptsOf(xs: seq<ReceiptPayload>, id: string): seq<ReceiptPayload> {
    Filter(xs, AboutJudgment(id))
  }

  // ------------------------------------------------------------------------- lives

  /** The judgment as it was proposed. */
  function AsProposed(j: Judgment): Judgment {
    Judgment(j.id, j.tenantId, j.companyId, j.fiscalPeriodId, j.fromId, j.toId, j.relation, Proposed, j.proposer,
             j.proposalReason, "", None, "", j.predecessorId, "", j.proposedAt, j.proposedAt, "")
  }

  /** The event is the decision that the judgment carries. */
  predicate IsVerdict(j: Judgment, e: JudgmentEvent) {
    && j.adjudicator.Some? && e.principal == j.adjudicator && e.reason == j.resolution && e.policyVersion == j.policyVersion
    && e.tenantId == j.tenantId && e.createdAt == j.decidedAt && e.from == Proposed
    && if j.status == Declined then e.action == RejectAction && e.to == Declined else e.action == ConfirmAction && e.to == Confirmed
  }

  /** The event says that a confirmed judgment gave way to the one that now stands for it. */
  predicate IsGivingWay(js: seq<Judgment>, j: Judgment, e: JudgmentEvent) {
    && e.action == SupersedeAction && e.from == Confirmed && e.to == Replaced && e.principal.None?
    && e.tenantId == j.tenantId && e.createdAt == j.updatedAt
    && var next := FindJudgment(js, j.supersedesId);
       next >= 0 && js[next].adjudicator.Some? && e.reason == js[next].resolution && e.createdAt == js[next].decidedAt
  }

  predicate IsWithdrawal(j: Judgment, e: JudgmentEvent) {
    && e.action == WithdrawAction && e.from == Proposed && e.to == Withdrawn && e.principal.None?
    && e.tenantId == j.tenantId && e.createdAt == j.decidedAt
  }

  /** The events of a judgment tell its life, and the last one commits it as it stands. */
  predicate LifeTold(p: Primitives, js: seq<Judgment>, j: Judgment, es: seq<JudgmentEvent>) {
    && (es != [] ==> es[|es| - 1].judgmentHash == p.judgmentHash(j))
    && match j.status
       case Proposed => es == [] && j == AsProposed(j)
       case Withdrawn => |es| == 1 && IsWithdrawal(j, es[0]) && j.adjudicator.None?
       case Confirmed => |es| == 1 && IsVerdict(j, es[0])
       case Declined => |es| == 1 && IsVerdict(j, es[0])
       case Replaced =>
         if j.adjudicator.None? then es == []
         else |es| == 2 && IsVerdict(j, es[0]) && IsGivingWay(js, j, es[1])
  }

  /** Exactly the verdicts are signed: by the adjudicator, over the judgment as proposed and as decided. */
  predicate VerdictSigned(p: Primitives, j: Judgment, es: seq<JudgmentEvent>, xs: seq<ReceiptPayload>) {
    if j.adjudicator.None? then xs == [] else |xs| == 1 && es != [] && SignsVerdict(p, j, es[0], xs[0])
  }

  predicate SignsVerdict(p: Primitives, j: Judgment, e: JudgmentEvent, x: ReceiptPayload)
    requires j.adjudicator.Some?
  {
    var who := j.adjudicator.value;
    && x.action == (if j.status == Declined then "relation_rejected" else "relation_confirmed")
    && x.version == RECEIPT_PAYLOAD_VERSION && x.issuedAt == j.decidedAt && x.policyVersion == j.policyVersion
    && x.fromMemoryId == j.fromId && x.toMemoryId == j.toId && x.reason == j.resolution
    && x.reviewedJudgmentHash == p.judgmentHash(AsProposed(j)) && x.resultingJudgmentHash == e.judgmentHash
    && x.tenantId == j.tenantId && x.companyId == j.companyId && x.fiscalPeriodId == j.fiscalPeriodId
    && x.principalId == who.subjectId && x.membershipId == who.membershipId && x.principalRoles == who.roles
    && x.authenticationMethod == who.authenticationMethod && x.assuranceLevel == who.assuranceLevel
    && x.principalAuthenticatedAt == who.authenticatedAt
  }

  predicate ToldAt(p: Primitives, s: State, i: nat)
    requires i < |s.judgments|
  {
    var j := s.judgments[i];
    var es := EventsOf(s.judgmentEvents, j.id);
    LifeTold(p, s.judgments, j, es) && (p.signing ==> VerdictSigned(p, j, es, ReceiptsOf(s.payloads, j.id)))
  }

  /** Events and receipts are about stored judgments. */
  ghost predicate JudgmentsKnown(s: State) {
    && (forall e | e in s.judgmentEvents :: FindJudgment(s.judgments, e.judgmentId) >= 0)
    && (forall x | x in s.payloads && x.subjectType == JUDGMENT_SUBJECT :: FindJudgment(s.judgments, x.subjectId) >= 0)
  }

  ghost predicate JudgmentsTold(p: Primitives, s: State) {
    JudgmentsKnown(s) && forall i | 0 <= i < |s.judgments| :: ToldAt(p, s, i)
  }

  // --------------------------------------------------------------------- appending

  lemma EventsAppend(es: seq<JudgmentEvent>, de: seq<JudgmentEvent>, id: string)
    ensures EventsOf(es + de, id) == EventsOf(es, id) + EventsOf(de, id)
  {
    FilterConcat(es, de, OfJudgment(id));
  }

  lemma ReceiptsAppend(xs: seq<ReceiptPayload>, dx: seq<ReceiptPayload>, id: string)
    ensures ReceiptsOf(xs + dx, id) == ReceiptsOf(xs, id) + ReceiptsOf(dx, id)
  {
    FilterConcat(xs, dx, AboutJudgment(id));
  }

  lemma OneEvent(e: JudgmentEvent, id: string)
    ensures EventsOf([e], id) == if e.judgmentId == id then [e] else []
  {
    FilterOne(e, OfJudgment(id));
  }

  lemma OneJudgmentReceipt(x: ReceiptPayload, id: string)
    requires x.subjectType == JUDGMENT_SUBJECT
    ensures ReceiptsOf([x], id) == if x.subjectId == id then [x] else []
  {
    FilterOne(x, AboutJudgment(id));
  }

  lemma OtherReceipts(xs: seq<ReceiptPayload>, id: string)
    requires forall x | x in xs :: x.subjectType != JUDGMENT_SUBJECT
    ensures ReceiptsOf(xs, id) == []
  {
    FilterNone(xs, AboutJudgment(id));
  }

  lemma NothingSaid(id: string)
    ensures EventsOf([], id) == [] && ReceiptsOf([], id) == []
  {
  }

  lemma UnknownIsSilent(s: State, id: string)
    requires JudgmentsKnown(s) && FindJudgment(s.judgments, id) < 0
    ensures EventsOf(s.judgmentEvents, id) == [] && ReceiptsOf(s.payloads, id) == []
  {
    hide FindJudgment;
    FilterNone(s.judgmentEvents, OfJudgment(id));
    FilterNone(s.payloads, AboutJudgment(id));
  }

  // ------------------------------------------------------------------ memory steps

  lemma MemoryStepTells(p: Primitives, s: State, after: State)
    requires JudgmentsTold(p, s) && SameJudgments(s, after)
    ensures JudgmentsTold(p, after)
  {
    hide LifeTold, VerdictSigned, FindJudgment;
    var dx := after.payloads[|s.payloads|..];
    assert |JUDGMENT_SUBJECT| != |MEMORY_SUBJECT|;
    assert after.payloads == s.payloads + dx;
    forall x | x in dx ensures x.subjectType != JUDGMENT_SUBJECT {
      var k :| 0 <= k < |dx| && dx[k] == x;
      assert after.payloads[|s.payloads| + k] == x;
    }
    forall i | 0 <= i < |after.judgments| ensures ToldAt(p, after, i) {
      var id := s.judgments[i].id;
      assert ToldAt(p, s, i);
      ReceiptsAppend(s.payloads, dx, id);
      OtherReceipts(dx, id);
      assert ReceiptsOf(s.payloads, id) + [] == ReceiptsOf(s.payloads, id);
    }
  }

  // -------------------------------------------------------------- rewriting judgments

  /** A life that was told stays told when the judgments move on around it. */
  lemma LifeStays(p: Primitives, js: seq<Judgment>, after: seq<Judgment>, j: Judgment, es: seq<JudgmentEvent>)
    requires LifeTold(p, js, j, es) && Extends(js, after)
    requires forall k | 0 <= k < |js| && js[k].adjudicator.Some? ::
      after[k].adjudicator.Some? && after[k].resolution == js[k].resolution && after[k].decidedAt == js[k].decidedAt
    ensures LifeTold(p, after, j, es)
  {
    if j.status == Replaced && j.adjudicator.Some? {
      JudgmentChains.FindStable(js, after, j.supersedesId);
    }
  }

  /** Judgments that carry a verdict keep it. */
  ghost predicate VerdictsStay(js: seq<Judgment>, after: seq<Judgment>) {
    |js| <= |after| &&
    forall k | 0 <= k < |js| && js[k].adjudicator.Some? ::
      after[k].adjudicator.Some? && after[k].resolution == js[k].resolution && after[k].decidedAt == js[k].decidedAt
  }

  /** A judgment that a step leaves as it is, without saying anything about it, stays told. */
  lemma UntouchedStaysTold(p: Primitives, s: State, after: State, i: nat, de: seq<JudgmentEvent>, dx: seq<ReceiptPayload>)
    requires i < |s.judgments| && ToldAt(p, s, i)
    requires Extends(s.judgments, after.judgments) && VerdictsStay(s.judgments, after.judgments)
    requires after.judgments[i] == s.judgments[i]
    requires after.judgmentEvents == s.judgmentEvents + de && after.payloads == s.payloads + dx
    requires EventsOf(de, s.judgments[i].id) == [] && ReceiptsOf(dx, s.judgments[i].id) == []
    ensures ToldAt(p, after, i)
  {
    hide LifeTold, VerdictSigned, EventsOf, ReceiptsOf, Extends;
    var j := s.judgments[i];
    EventsAppend(s.judgmentEvents, de, j.id);
    ReceiptsAppend(s.payloads, dx, j.id);
    assert EventsOf(s.judgmentEvents, j.id) + [] == EventsOf(s.judgmentEvents, j.id);
    assert ReceiptsOf(s.payloads, j.id) + [] == ReceiptsOf(s.payloads, j.id);
    LifeStays(p, s.judgments, after.judgments, j, EventsOf(s.judgmentEvents, j.id));
  }

  lemma KnownStays(s: State, after: State, de: seq<JudgmentEvent>, dx: seq<ReceiptPayload>)
    requires JudgmentsKnown(s) && Extends(s.judgments, after.judgments)
    requires after.judgmentEvents == s.judgmentEvents + de && after.payloads == s.payloads + dx
    requires forall e | e in de :: FindJudgment(s.judgments, e.judgmentId) >= 0
    requires forall x | x in dx && x.subjectType == JUDGMENT_SUBJECT :: FindJudgment(s.judgments, x.subjectId) >= 0
    ensures JudgmentsKnown(after)
  {
    hide FindJudgment, Extends;
    forall id | FindJudgment(s.judgments, id) >= 0 ensures FindJudgment(after.judgments, id) >= 0 {
      StaysFound(s.judgments, after.judgments, id);
    }
  }

  lemma StaysFound(js: seq<Judgment>, after: seq<Judgment>, id: string)
    requires Extends(js, after) && FindJudgment(js, id) >= 0
    ensures FindJudgment(after, id) == FindJudgment(js, id)
  {
    JudgmentChains.FindStable(js, after, id);
  }

  // ------------------------------------------------------------------ judgment steps

  /** A step rewrites the judgment at `at`; what it says is about that one only. */
  lemma RewriteTells(p: Primitives, s: State, after: State, at: nat, j: Judgment, de: seq<JudgmentEvent>, dx: seq<ReceiptPayload>)
    requires JudgmentsTold(p, s) && DistinctJudgments(s.judgments) && at < |s.judgments|
    requires j.id == s.judgments[at].id && after.judgments == s.judgments[at := j]
    requires Extends(s.judgments, after.judgments) && VerdictsStay(s.judgments, after.judgments)
    requires after.judgmentEvents == s.judgmentEvents + de && after.payloads == s.payloads + dx
    requires forall e | e in de :: e.judgmentId == j.id
    requires forall x | x in dx :: x.subjectId == j.id
    requires ToldAt(p, after, at)
    ensures JudgmentsTold(p, after)
  {
    hide ToldAt, Extends, VerdictsStay, EventsOf, ReceiptsOf;
    FindJudgmentAt(s.judgments, at);
    KnownStays(s, after, de, dx);
    forall i | 0 <= i < |after.judgments| ensures ToldAt(p, after, i) {
      if i != at {
        SilentAbout(de, dx, j.id, s.judgments[i].id);
        UntouchedStaysTold(p, s, after, i, de, dx);
      }
    }
  }

  lemma SilentAbout(de: seq<JudgmentEvent>, dx: seq<ReceiptPayload>, id: string, other: string)
    requires (forall e | e in de :: e.judgmentId == id) && (forall x | x in dx :: x.subjectId == id) && other != id
    ensures EventsOf(de, other) == [] && ReceiptsOf(dx, other) == []
  {
    FilterNone(de, OfJudgment(other));
    FilterNone(dx, AboutJudgment(other));
  }

  /** A new proposal comes with nothing said about it. */
  lemma AppendTells(p: Primitives, s: State, after: State, j: Judgment)
    requires JudgmentsTold(p, s) && FindJudgment(s.judgments, j.id) < 0 && j == AsProposed(j)
    requires after.judgments == s.judgments + [j] && after.judgmentEvents == s.judgmentEvents && after.payloads == s.payloads
    ensures JudgmentsTold(p, after)
  {
    hide FindJudgment, EventsOf, ReceiptsOf, LifeTold, VerdictSigned;
    UnknownIsSilent(s, j.id);
    assert after.judgmentEvents == s.judgmentEvents + [] && after.payloads == s.payloads + [];
    KnownStays(s, after, [], []);
    forall i | 0 <= i < |after.judgments| ensures ToldAt(p, after, i) {
      if i < |s.judgments| {
        NothingSaid(s.judgments[i].id);
        UntouchedStaysTold(p, s, after, i, [], []);
      } else {
        NewIsTold(p, after.judgments, j);
      }
    }
  }

  lemma NewIsTold(p: Primitives, js: seq<Judgment>, j: Judgment)
    requires j == AsProposed(j)
    ensures LifeTold(p, js, j, []) && VerdictSigned(p, j, [], [])
  {
  }

  /** A proposed predecessor gives way to a proposal: no event tells of it. */
  lemma ProposedGivesWay(p: Primitives, s: State, after: State, at: nat, now: string, nextId: string)
    requires JudgmentsTold(p, s) && DistinctJudgments(s.judgments) && at < |s.judgments| && s.judgments[at].status == Proposed
    requires after == s.(judgments := s.judgments[at := s.judgments[at].(status := Replaced, supersedesId := nextId, decidedAt := now,
                                                                        updatedAt := now)])
    ensures JudgmentsTold(p, after)
  {
    hide EventsOf, ReceiptsOf, FindJudgment;
    var j := after.judgments[at];
    assert ToldAt(p, s, at);
    assert ToldAt(p, after, at);
    assert after.judgmentEvents == s.judgmentEvents + [] && after.payloads == s.payloads + [];
    RewriteExtends(s.judgments, at, j);
    RewriteTells(p, s, after, at, j, [], []);
  }

  lemma RewriteExtends(js: seq<Judgment>, at: nat, j: Judgment)
    requires at < |js| && SameSubject(js[at], j)
    ensures Extends(js, js[at := j])
  {
  }

  /** What a withdrawal or a verdict does to its judgment is told by its one event, and a verdict is signed. */
  lemma DecidedIsTold(p: Primitives, s: State, after: State, at: nat, j: Judgment, e: JudgmentEvent, dx: seq<ReceiptPayload>)
    requires JudgmentsTold(p, s) && at < |s.judgments| && s.judgments[at].status == Proposed && j.id == s.judgments[at].id
    requires after.judgments == s.judgments[at := j]
    requires after.judgmentEvents == s.judgmentEvents + [e] && after.payloads == s.payloads + dx
    requires e.judgmentId == j.id && LifeTold(p, after.judgments, j, [e])
    requires p.signing ==> VerdictSigned(p, j, [e], ReceiptsOf(dx, j.id))
    ensures ToldAt(p, after, at)
  {
    hide ReceiptsOf;
    assert ToldAt(p, s, at);
    EventsAppend(s.judgmentEvents, [e], j.id);
    OneEvent(e, j.id);
    ReceiptsAppend(s.payloads, dx, j.id);
    assert EventsOf(after.judgmentEvents, j.id) == [e];
    assert p.signing ==> ReceiptsOf(s.payloads, j.id) == [];
    assert p.signing ==> ReceiptsOf(after.payloads, j.id) == ReceiptsOf(dx, j.id);
  }

  /** A confirmed predecessor gives way to the judgment that was just confirmed. */
  lemma GivenWayTells(p: Primitives, s: State, pred: nat, at: nat, actor: string, requestId: string, eventId: string, now: string)
    requires JudgmentsTold(p, s) && DistinctJudgments(s.judgments) && pred < |s.judgments| && at < |s.judgments| && pred != at
    requires s.judgments[pred].status == Confirmed && s.judgments[at].adjudicator.Some? && s.judgments[at].decidedAt == now
    ensures JudgmentsTold(p, GivenWay(p, s, pred, s.judgments[at], actor, requestId, eventId, now))
  {
    hide ReceiptsOf, EventsOf, SignsVerdict;
    var after := GivenWay(p, s, pred, s.judgments[at], actor, requestId, eventId, now);
    var was, j, e := s.judgments[pred], after.judgments[pred], after.judgmentEvents[|s.judgmentEvents|];
    assert ToldAt(p, s, pred);
    EventsAppend(s.judgmentEvents, [e], j.id);
    OneEvent(e, j.id);
    FindJudgmentAt(after.judgments, at);
    var es := EventsOf(s.judgmentEvents, j.id);
    GivingWayIsTold(p, s.judgments, after.judgments, was, j, es, e);
    assert EventsOf(after.judgmentEvents, j.id) == es + [e];
    if p.signing {
      SignedStays(p, was, j, es, es + [e], ReceiptsOf(s.payloads, j.id));
    }
    assert ToldAt(p, after, pred);
    RewriteExtends(s.judgments, pred, j);
    assert after.payloads == s.payloads + [];
    RewriteTells(p, s, after, pred, j, [e], []);
  }

  lemma SignedStays(p: Primitives, was: Judgment, j: Judgment, es: seq<JudgmentEvent>, longer: seq<JudgmentEvent>, xs: seq<ReceiptPayload>)
    requires VerdictSigned(p, was, es, xs) && was.adjudicator.Some? && was.status == Confirmed
    requires j == was.(status := Replaced, supersedesId := j.supersedesId, updatedAt := j.updatedAt)
    requires longer != [] && longer[0] == es[0]
    ensures VerdictSigned(p, j, longer, xs)
  {
  }

  lemma GivingWayIsTold(p: Primitives, js: seq<Judgment>, after: seq<Judgment>, was: Judgment, j: Judgment,
                        es: seq<JudgmentEvent>, e: JudgmentEvent)
    requires LifeTold(p, js, was, es) && was.status == Confirmed
    requires j == was.(status := Replaced, supersedesId := j.supersedesId, updatedAt := j.updatedAt)
    requires IsGivingWay(after, j, e) && e.judgmentHash == p.judgmentHash(j)
    ensures LifeTold(p, after, j, es + [e])
  {
    hide IsGivingWay;
    assert (es + [e])[0] == es[0] && (es + [e])[1] == e;
  }

  lemma ProposeTells(p: Primitives, s: State, c: ProposeCommand, caller: Source, id: string, now: string, after: State)
    requires JudgmentsTold(p, s) && DistinctJudgments(s.judgments) && FindJudgment(s.judgments, id) < 0
    requires after == ProposeStep(p, s, c, caller, id, now).0
    ensures JudgmentsTold(p, after)
  {
    hide JudgmentsTold, LedgerKey, ProposeHash, BoundTo, ReplayedProposal;
    if after != s {
      var (tuple, period) := ProposalScope(s, c, caller).value;
      var j := NewJudgment(tuple, period, c, caller, id, now);
      var replaced := PredecessorCheck(p, s, c, caller).value;
      ProposalTells(p, s, after, j, replaced, now);
    }
  }

  lemma ProposalTells(p: Primitives, s: State, after: State, j: Judgment, replaced: string, now: string)
    requires JudgmentsTold(p, s) && DistinctJudgments(s.judgments) && FindJudgment(s.judgments, j.id) < 0 && j == AsProposed(j)
    requires replaced != "" ==> FindJudgment(s.judgments, replaced) >= 0 && s.judgments[FindJudgment(s.judgments, replaced)].status == Proposed
    requires after.judgments == WithProposal(s.judgments, j, replaced, now)
    requires after.judgmentEvents == s.judgmentEvents && after.payloads == s.payloads
    ensures JudgmentsTold(p, after)
  {
    hide JudgmentsTold, AsProposed;
    var at := FindJudgment(s.judgments, replaced);
    if replaced == "" {
      AppendTells(p, s, after, j);
    } else {
      var mid := s.(judgments := s.judgments[at := s.judgments[at].(status := Replaced, supersedesId := j.id, decidedAt := now, updatedAt := now)]);
      ProposedGivesWay(p, s, mid, at, now, j.id);
      JudgmentChains.FindStable(s.judgments, mid.judgments, j.id);
      AppendTells(p, mid, after, j);
    }
  }

  lemma WithdrawTells(p: Primitives, s: State, judgmentId: string, requestId: string, caller: Source, eventId: string, now: string,
                      after: State)
    requires JudgmentsTold(p, s) && DistinctJudgments(s.judgments)
    requires after == WithdrawStep(p, s, judgmentId, requestId, caller, eventId, now).0
    ensures JudgmentsTold(p, after)
  {
    hide LedgerKey, BoundTo, JudgmentsTold;
    var at := FindJudgment(s.judgments, judgmentId);
    if after != s {
      WithdrawalTells(p, s, at, requestId, caller, eventId, now);
    }
  }

  lemma WithdrawalTells(p: Primitives, s: State, at: nat, requestId: string, caller: Source, eventId: string, now: string)
    requires JudgmentsTold(p, s) && DistinctJudgments(s.judgments) && at < |s.judgments| && s.judgments[at].status == Proposed
    ensures JudgmentsTold(p, CommitWithdrawal(p, s, at, requestId, caller, eventId, now).0)
  {
    hide LedgerKey, ReceiptsOf, EventsOf, AsProposed;
    var after := CommitWithdrawal(p, s, at, requestId, caller, eventId, now).0;
    var j, e := after.judgments[at], after.judgmentEvents[|s.judgmentEvents|];
    assert after.payloads == s.payloads + [];
    assert ToldAt(p, s, at);
    ProposedIsUndecided(p, s, at);
    NothingSaid(j.id);
    DecidedIsTold(p, s, after, at, j, e, []);
    RewriteExtends(s.judgments, at, j);
    RewriteTells(p, s, after, at, j, [e], []);
  }

  lemma ProposedIsUndecided(p: Primitives, s: State, at: nat)
    requires JudgmentsTold(p, s) && at < |s.judgments| && s.judgments[at].status == Proposed
    ensures s.judgments[at].adjudicator.None? && s.judgments[at] == AsProposed(s.judgments[at])
  {
    assert ToldAt(p, s, at);
  }

  /** The decision half of a verdict: row, event and receipt. */
  lemma VerdictIsTold(p: Primitives, s: State, after: State, at: nat, j: Judgment, who: Principal, requestId: string,
                      eventId: string, now: string)
    requires JudgmentsTold(p, s) && DistinctJudgments(s.judgments) && at < |s.judgments| && s.judgments[at].status == Proposed
    requires j.status == Confirmed || j.status == Declined
    requires j == s.judgments[at].(status := j.status, resolution := j.resolution, adjudicator := Some(Snapshot(p, who)),
                                   policyVersion := j.policyVersion, decidedAt := now, updatedAt := now)
    requires after.judgments == s.judgments[at := j]
    requires after.judgmentEvents == s.judgmentEvents + [DecisionRecord(p, s.judgments[at], j, requestId, eventId, now)]
    requires after.payloads == s.payloads + Signed(p, [AdjudicatedPayload(p, s.memories, s.judgments[at], j, who, now)])
    ensures JudgmentsTold(p, after)
  {
    hide ReceiptsOf, EventsOf, EnvelopeOf;
    var e := DecisionRecord(p, s.judgments[at], j, requestId, eventId, now);
    var x := AdjudicatedPayload(p, s.memories, s.judgments[at], j, who, now);
    ProposedIsUndecided(p, s, at);
    OneJudgmentReceipt(x, j.id);
    DecidedIsTold(p, s, after, at, j, e, Signed(p, [x]));
    RewriteExtends(s.judgments, at, j);
    RewriteTells(p, s, after, at, j, [e], Signed(p, [x]));
  }

  /** Only judgments, their events and the signed payloads matter. */
  lemma ToldCarriesOver(p: Primitives, s: State, after: State)
    requires JudgmentsTold(p, s)
    requires after.judgments == s.judgments && after.judgmentEvents == s.judgmentEvents && after.payloads == s.payloads
    ensures JudgmentsTold(p, after)
  {
    hide LifeTold, VerdictSigned, EventsOf, ReceiptsOf, FindJudgment;
    forall i | 0 <= i < |after.judgments| ensures ToldAt(p, after, i) {
      assert ToldAt(p, s, i);
    }
  }

  /** The state of a verdict after its decision and before the predecessor gives way. */
  function DecidedHalf(p: Primitives, s: State, at: nat, j: Judgment, who: Principal, requestId: string, eventId: string, now: string): State
    requires at < |s.judgments|
  {
    s.(judgments := s.judgments[at := j],
       judgmentEvents := s.judgmentEvents + [DecisionRecord(p, s.judgments[at], j, requestId, eventId, now)],
       payloads := s.payloads + Signed(p, [AdjudicatedPayload(p, s.memories, s.judgments[at], j, who, now)]))
  }

  lemma CommittedVerdictTells(p: Primitives, s: State, v: Verdict, c: AdjudicateCommand, who: Principal, at: nat,
                              policyVersion: string, pred: int, eventId: string, supersedeEventId: string, now: string)
    requires JudgmentsTold(p, s) && DistinctJudgments(s.judgments) && at < |s.judgments| && -1 <= pred < |s.judgments|
    requires s.judgments[at].status == Proposed && (pred >= 0 ==> s.judgments[pred].status == Confirmed)
    ensures JudgmentsTold(p, CommitVerdict(p, s, v, c, who, at, policyVersion, pred, eventId, supersedeEventId, now).0)
  {
    hide JudgmentsTold, Emit, AdjudicatedPayload, LedgerKey, AdjudicateHash, DecisionRecord, SupersessionRecord, WithRelation;
    var after := CommitVerdict(p, s, v, c, who, at, policyVersion, pred, eventId, supersedeEventId, now).0;
    var j := Adjudicated(p, s.judgments[at], v, c, who, policyVersion, now);
    var x := AdjudicatedPayload(p, s.memories, s.judgments[at], j, who, now);
    var half := DecidedHalf(p, s, at, j, who, c.requestId, eventId, now);
    EmitWrites(p, VerdictState(p, s, v, at, j, pred, who, c.requestId, eventId, supersedeEventId, now), x);
    VerdictIsTold(p, s, half, at, j, who, c.requestId, eventId, now);
    if pred < 0 {
      ToldCarriesOver(p, half, after);
    } else {
      GivenWayTells(p, half, pred, at, who.subjectId, c.requestId, supersedeEventId, now);
      ToldCarriesOver(p, GivenWay(p, half, pred, j, who.subjectId, c.requestId, supersedeEventId, now), after);
    }
  }

  lemma VerdictTells(p: Primitives, s: State, v: Verdict, c: AdjudicateCommand, who: Principal, policy: JudgmentPolicy,
                     eventId: string, supersedeEventId: string, now: string, after: State)
    requires JudgmentsTold(p, s) && DistinctJudgments(s.judgments)
    requires after == AdjudicateStep(p, s, v, c, who, policy, eventId, supersedeEventId, now).0
    ensures JudgmentsTold(p, after)
  {
    hide JudgmentsTold, AdjudicateStep, CommitVerdict, AdjudicationCheck;
    VerdictCommitsIff(p, s, v, c, who, policy, eventId, supersedeEventId, now);
    if VerdictGuards(p, s, v, c, who, policy) {
      var (at, policyVersion, pred) := AdjudicationCheck(p, s, v, c, who, policy).value;
      CommittedVerdictTells(p, s, v, c, who, at, policyVersion, pred, eventId, supersedeEventId, now);
    }
  }

  lemma StepTells(p: Primitives, s: State, op: Op)
    requires Inv(p, s) && LegalOp(s, op) && JudgmentsTold(p, s)
    ensures JudgmentsTold(p, Step(p, s, op))
  {
    hide JudgmentsTold, ProposeStep, WithdrawStep, AdjudicateStep, MemoryInv;
    var after := Step(p, s, op);
    if MemoryOp(op) {
      MemoryOpKeepsJudgments(p, s, op, after);
      MemoryStepTells(p, s, after);
    } else {
      match op
      case Propose(c, caller, id, now) => ProposeTells(p, s, c, caller, id, now, after);
      case Adjudicate(v, c, who, policy, eventId, supersedeEventId, now) =>
        VerdictTells(p, s, v, c, who, policy, eventId, supersedeEventId, now, after);
      case Withdraw(judgmentId, requestId, caller, eventId, now) =>
        WithdrawTells(p, s, judgmentId, requestId, caller, eventId, now, after);
    }
  }

  lemma NothingToTell(p: Primitives)
    ensures JudgmentsTold(p, EMPTY)
  {
  }

  /** In every run the events of a judgment tell its life: proposed without one, then at most one decision or
      withdrawal, then at most one supersession; and with a signer exactly the decisions are signed, each once. */
  lemma {:induction false} RunsTellJudgments(p: Primitives, ops: seq<Op>)
    requires LegalRun(p, ops)
    ensures JudgmentsTold(p, Run(p, ops))
  {
    hide JudgmentsTold, Step, LegalOp, Inv;
    if ops == [] {
      NothingToTell(p);
    } else {
      var shorter := ops[..|ops| - 1];
      RunsTellJudgments(p, shorter);
      RunKeepsInv(p, shorter);
      StepTells(p, Run(p, shorter), ops[|ops| - 1]);
    }
  }

  /** With a signer, each judgment that carries an adjudicator has exactly one receipt and every other judgment none: a
      rejection's for a declined one and a confirmation's for any other, over the hash that the decision's event holds,
      with the resolution as its reason and the judgment's own ends. */
  lemma VerdictsAreSigned(p: Primitives, ops: seq<Op>, i: nat)
    requires LegalRun(p, ops) && p.signing && i < |Run(p, ops).judgments|
    ensures
      var s := Run(p, ops);
      var j := s.judgments[i];
      var receipts := Filter(s.payloads, (x: ReceiptPayload) => x.subjectType == "judgment" && x.subjectId == j.id);
      if j.adjudicator.None? then receipts == [] && j.status in {Proposed, Withdrawn, Replaced}
      else
        && |receipts| == 1 && j.status in {Confirmed, Declined, Replaced}
        && receipts[0].action == (if j.status == Declined then "relation_rejected" else "relation_confirmed")
        && (exists e | e in s.judgmentEvents ::
              && e.judgmentId == j.id && e.principal == j.adjudicator && e.reason == j.resolution
              && e.action == (if j.status == Declined then RejectAction else ConfirmAction)
              && receipts[0].resultingJudgmentHash == e.judgmentHash)
        && receipts[0].reason == j.resolution && receipts[0].policyVersion == j.policyVersion
        && receipts[0].fromMemoryId == j.fromId && receipts[0].toMemoryId == j.toId
        && receipts[0].principalId == j.adjudicator.value.subjectId
        && (j.status != Replaced ==> receipts[0].resultingJudgmentHash == p.judgmentHash(j))
  {
    hide Run, LegalRun, Filter;
    RunsTellJudgments(p, ops);
    var s := Run(p, ops);
    var j := s.judgments[i];
    assert ToldAt(p, s, i);
    var es, xs := EventsOf(s.judgmentEvents, j.id), ReceiptsOf(s.payloads, j.id);
    FilterAgrees(s.payloads, AboutJudgment(j.id), (x: ReceiptPayload) => x.subjectType == "judgment" && x.subjectId == j.id);
    if j.adjudicator.Some? {
      assert es[0] in es && es[0] in s.judgmentEvents;
    }
  }
}
