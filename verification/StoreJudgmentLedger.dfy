/** The judgment ledger over whole runs: what a reservation keeps, when it can be overwritten, and what a repeated
    or reused request is answered. */
module StoreJudgmentLedger {
  import opened Text
  import opened Records
  import opened StoreModel
  import opened JudgmentModel
  import opened JudgmentChains
  import opened RevisionChains
  import opened StoreInvariants
  import opened StoreSteps
  import opened StoreRuns
  import opened StoreRows
  import opened StoreIdempotence
  import StoreTheorems
  import K = Kernel
  import E = Envelope

  /** The ledger key under which an operation asks, and what it binds there. */
  datatype Claim = Claim(key: string, commandHash: string, binding: string)

  /** The claim of a judgment operation, once it is past the checks before the ledger. */
  function ClaimOf(p: Primitives, s: State, op: Op): Option<Claim> {
    match op
    case Propose(c, caller, _, _) =>
      var scope := ProposalScope(s, c, caller);
      if scope.Err? then None
      else Some(Claim(LedgerKey(scope.value.0.tenantId, c.requestId), ProposeHash(p, c), p.proposerBinding(caller)))
    case Adjudicate(_, c, who, _, _, _, _) =>
      if Blank(c.resolution) || Blank(c.judgmentId) || Blank(c.expectedJudgmentHash) || Blank(c.requestId) then None
      else Some(Claim(LedgerKey(who.tenantId, c.requestId), AdjudicateHash(p, c), who.subjectId))
    case Withdraw(judgmentId, requestId, caller, _, _) =>
      var at := FindJudgment(s.judgments, judgmentId);
      if Blank(judgmentId) || Blank(requestId) || !CanPropose(caller) || at < 0 then None
      else Some(Claim(LedgerKey(s.judgments[at].tenantId, requestId), p.commandHash([judgmentId]), p.proposerBinding(caller)))
    case _ => None
  }

  /** The new state and the answer of a judgment operation. */
  function Answered(p: Primitives, s: State, op: Op): (State, Result<JudgmentAnswer>)
    requires !MemoryOp(op)
  {
    match op
    case Propose(c, caller, id, now) => ProposeStep(p, s, c, caller, id, now)
    case Adjudicate(v, c, who, policy, eventId, supersedeEventId, now) =>
      AdjudicateStep(p, s, v, c, who, policy, eventId, supersedeEventId, now)
    case Withdraw(judgmentId, requestId, caller, eventId, now) => WithdrawStep(p, s, judgmentId, requestId, caller, eventId, now)
    case _ => assert false; (s, Err(JudgmentNotFound))
  }

  // ---------------------------------------------------------------- conflicts

  /** A request id that is reserved for another command or another caller always conflicts, whatever the
      operation, and nothing changes. */
  lemma OtherClaimsConflict(p: Primitives, s: State, op: Op)
    requires !MemoryOp(op) && ClaimOf(p, s, op).Some?
    requires
      var claim := ClaimOf(p, s, op).value;
      claim.key in s.judgmentLedger && !BoundTo(s.judgmentLedger[claim.key], claim.commandHash, claim.binding)
    ensures Answered(p, s, op) == (s, Err(IdempotencyConflict))
  {
    hide AdjudicationCheck, ProposalCheck, LedgerKey, ProposeHash, AdjudicateHash;
  }

  // --------------------------------------------------------------- overwriting

  /** The guards of a withdrawal after its ledger. */
  predicate WithdrawalGuards(p: Primitives, s: State, judgmentId: string, caller: Source) {
    var at := FindJudgment(s.judgments, judgmentId);
    at >= 0 && s.judgments[at].status == Proposed && p.proposerBinding(s.judgments[at].proposer) == p.proposerBinding(caller)
  }

  /** A decision on a proposal, under the proposal's own request: same key, same command hash, same binding. */
  predicate Overwrites(p: Primitives, s: State, op: Op, key: string) {
    && key in s.judgmentLedger && s.judgmentLedger[key].eventId.None?
    && ClaimOf(p, s, op) == Some(Claim(key, s.judgmentLedger[key].commandHash, s.judgmentLedger[key].binding))
    && match op
       case Adjudicate(v, c, who, policy, _, _, _) => VerdictGuards(p, s, v, c, who, policy)
       case Withdraw(judgmentId, _, caller, _, _) => WithdrawalGuards(p, s, judgmentId, caller)
       case _ => false
  }

  lemma ProposeLeavesReservation(p: Primitives, s: State, op: Op, key: string)
    requires JudgmentLedgerOk(s) && op.Propose? && key in s.judgmentLedger
    ensures key in Step(p, s, op).judgmentLedger && Step(p, s, op).judgmentLedger[key] == s.judgmentLedger[key]
  {
    hide ProposalCheck, LedgerKey, ProposeHash, WithProposal, ReplayedProposal, ProposalScope, BoundTo;
  }

  lemma WithdrawReserves(p: Primitives, s: State, op: Op, key: string)
    requires op.Withdraw? && key in s.judgmentLedger && s.judgmentLedger[key].completed
    ensures key in Step(p, s, op).judgmentLedger
    ensures if Overwrites(p, s, op, key)
            then Step(p, s, op).judgmentLedger[key] ==
                 JudgmentReservation(s.judgmentLedger[key].commandHash, s.judgmentLedger[key].binding, op.judgmentId, Some(op.eventId), true)
            else Step(p, s, op).judgmentLedger[key] == s.judgmentLedger[key]
  {
    hide LedgerKey;
  }

  lemma AdjudicateReserves(p: Primitives, s: State, op: Op, key: string)
    requires op.Adjudicate? && key in s.judgmentLedger && s.judgmentLedger[key].completed
    ensures key in Step(p, s, op).judgmentLedger
    ensures if Overwrites(p, s, op, key)
            then Step(p, s, op).judgmentLedger[key] ==
                 JudgmentReservation(s.judgmentLedger[key].commandHash, s.judgmentLedger[key].binding,
                                     op.adjudication.judgmentId, Some(op.eventId), true)
            else Step(p, s, op).judgmentLedger[key] == s.judgmentLedger[key]
  {
    hide AdjudicationCheck, AdjudicateStep, LedgerKey, AdjudicateHash, VerdictState, AdjudicatedPayload;
    var Adjudicate(v, c, who, policy, eventId, supersedeEventId, now) := op;
    VerdictCommitsIff(p, s, v, c, who, policy, eventId, supersedeEventId, now);
  }

  /** A step changes a reservation exactly when it overwrites it, and then keeps command hash and binding. */
  lemma ReservationChangesIff(p: Primitives, s: State, op: Op, key: string)
    requires Inv(p, s) && key in s.judgmentLedger
    ensures
      var after := Step(p, s, op);
      && key in after.judgmentLedger
      && (after.judgmentLedger[key] != s.judgmentLedger[key] <==> Overwrites(p, s, op, key))
      && after.judgmentLedger[key].commandHash == s.judgmentLedger[key].commandHash
      && after.judgmentLedger[key].binding == s.judgmentLedger[key].binding
      && (s.judgmentLedger[key].eventId.Some? ==> after.judgmentLedger[key] == s.judgmentLedger[key])
      && (after.judgmentLedger[key] != s.judgmentLedger[key] ==> after.judgmentLedger[key].eventId.Some?)
  {
    hide Step, VerdictGuards, WithdrawalGuards, ClaimOf, MemoryInv, JudgmentsOk, JudgmentsAnchored;
    if MemoryOp(op) {
      MemoryOpKeepsJudgments(p, s, op, Step(p, s, op));
    } else if op.Propose? {
      ProposeLeavesReservation(p, s, op, key);
    } else if op.Withdraw? {
      WithdrawReserves(p, s, op, key);
    } else {
      AdjudicateReserves(p, s, op, key);
    }
  }

  // --------------------------------------------------------------------- runs

  /** What happens to a reservation along a run: its command hash and binding stay, one with an event stays as it
      is, and one without changes only by getting an event. */
  lemma {:induction false} ReservationStays(p: Primitives, ops: seq<Op>, n: nat, key: string)
    requires LegalRun(p, ops) && n <= |ops| && key in Run(p, ops[..n]).judgmentLedger
    ensures key in Run(p, ops).judgmentLedger
    ensures
      var was, now := Run(p, ops[..n]).judgmentLedger[key], Run(p, ops).judgmentLedger[key];
      && now.commandHash == was.commandHash && now.binding == was.binding
      && (was.eventId.Some? || now.eventId.None? ==> now == was)
    decreases |ops|
  {
    if n < |ops| {
      var shorter := ops[..|ops| - 1];
      assert shorter[..n] == ops[..n];
      ReservationStays(p, shorter, n, key);
      RunKeepsInv(p, shorter);
      ReservationChangesIff(p, Run(p, shorter), ops[|ops| - 1], key);
    } else {
      assert ops[..n] == ops;
    }
  }

  /** Rows of a run keep their ids, topics and scopes. */
  lemma {:induction false} RunKeepsSubjects(p: Primitives, ops: seq<Op>, n: nat, id: string)
    requires LegalRun(p, ops) && n <= |ops| && FindMemory(Run(p, ops[..n]).memories, id) >= 0
    ensures
      var ms, later := Run(p, ops[..n]).memories, Run(p, ops).memories;
      FindMemory(later, id) == FindMemory(ms, id) && later[FindMemory(ms, id)].scope == ms[FindMemory(ms, id)].scope
    decreases |ops|
  {
    if n < |ops| {
      var shorter := ops[..|ops| - 1];
      assert shorter[..n] == ops[..n];
      RunKeepsSubjects(p, shorter, n, id);
      var s, op := Run(p, shorter), ops[|ops| - 1];
      StepKeepsRows(p, s, op);
      StoreInvariants.FindStable(s.memories, Run(p, ops).memories, id);
    } else {
      assert ops[..n] == ops;
    }
  }

  // -------------------------------------------------------------- repetitions

  /** An operation that succeeded holds its request's reservation, for the judgment it answered with. */
  lemma AnswerReserves(p: Primitives, s: State, op: Op, result: JudgmentAnswer)
    requires Inv(p, s) && !MemoryOp(op) && LegalOp(s, op) && Answered(p, s, op).1 == Ok(result)
    ensures ClaimOf(p, s, op).Some?
    ensures
      var claim, ledger := ClaimOf(p, s, op).value, Answered(p, s, op).0.judgmentLedger;
      && claim.key in ledger && BoundTo(ledger[claim.key], claim.commandHash, claim.binding)
      && ledger[claim.key].judgmentId == result.judgment.id
      && (!op.Propose? ==> ledger[claim.key].eventId == result.eventId && result.eventId.Some?)
      && (op.Propose? ==> result.eventId.None?)
  {
    hide ProposalCheck, AdjudicationCheck, LedgerKey, ProposeHash, AdjudicateHash, VerdictState, AdjudicatedPayload, MemoryInv, JudgmentsOk;
    if op.Propose? {
      ProposalReserves(p, s, op, result);
    } else if op.Withdraw? {
      WithdrawalReserves(p, s, op, result);
    } else {
      VerdictReserves(p, s, op, result);
    }
  }

  lemma ProposalReserves(p: Primitives, s: State, op: Op, result: JudgmentAnswer)
    requires JudgmentLedgerOk(s) && op.Propose? && Answered(p, s, op).1 == Ok(result)
    ensures ClaimOf(p, s, op).Some? && result.eventId.None?
    ensures
      var claim, ledger := ClaimOf(p, s, op).value, Answered(p, s, op).0.judgmentLedger;
      && claim.key in ledger && BoundTo(ledger[claim.key], claim.commandHash, claim.binding)
      && ledger[claim.key].judgmentId == result.judgment.id
  {
    hide ProposalCheck, LedgerKey, ProposeHash;
  }

  lemma WithdrawalReserves(p: Primitives, s: State, op: Op, result: JudgmentAnswer)
    requires op.Withdraw? && Answered(p, s, op).1 == Ok(result)
    ensures ClaimOf(p, s, op).Some?
    ensures
      var claim, ledger := ClaimOf(p, s, op).value, Answered(p, s, op).0.judgmentLedger;
      && claim.key in ledger && BoundTo(ledger[claim.key], claim.commandHash, claim.binding)
      && ledger[claim.key].judgmentId == result.judgment.id && ledger[claim.key].eventId == result.eventId && result.eventId.Some?
  {
    hide LedgerKey;
  }

  lemma VerdictReserves(p: Primitives, s: State, op: Op, result: JudgmentAnswer)
    requires op.Adjudicate? && Answered(p, s, op).1 == Ok(result)
    ensures ClaimOf(p, s, op).Some?
    ensures
      var claim, ledger := ClaimOf(p, s, op).value, Answered(p, s, op).0.judgmentLedger;
      && claim.key in ledger && BoundTo(ledger[claim.key], claim.commandHash, claim.binding)
      && ledger[claim.key].judgmentId == result.judgment.id && ledger[claim.key].eventId == result.eventId && result.eventId.Some?
  {
    hide AdjudicationCheck, LedgerKey, AdjudicateHash, VerdictState, AdjudicatedPayload;
  }

  /** What a bound reservation with an event answers to a verdict or a withdrawal: the judgment as it is now and the
      stored event. */
  lemma EventAnswers(p: Primitives, s: State, op: Op)
    requires JudgmentLedgerOk(s) && (op.Adjudicate? || op.Withdraw?) && ClaimOf(p, s, op).Some?
    requires
      var claim := ClaimOf(p, s, op).value;
      && claim.key in s.judgmentLedger && BoundTo(s.judgmentLedger[claim.key], claim.commandHash, claim.binding)
      && s.judgmentLedger[claim.key].eventId.Some?
    ensures
      var r := s.judgmentLedger[ClaimOf(p, s, op).value.key];
      && FindJudgment(s.judgments, r.judgmentId) >= 0
      && Answered(p, s, op) == (s, Ok(JudgmentAnswer(s.judgments[FindJudgment(s.judgments, r.judgmentId)], r.eventId, true)))
  {
    hide AdjudicationCheck, LedgerKey, AdjudicateHash, VerdictState, AdjudicatedPayload;
  }

  /** The same operation asked again: clocks, ids, policies and, for a verdict, even the verdict may differ. */
  predicate SameRequest(op: Op, again: Op) {
    match (op, again)
    case (Propose(c, caller, _, _), Propose(d, other, _, _)) => c == d && caller == other
    case (Adjudicate(_, c, who, _, _, _, _), Adjudicate(_, d, other, _, _, _, _)) => c == d && who == other
    case (Withdraw(judgmentId, requestId, caller, _, _), Withdraw(j, r, other, _, _)) =>
      judgmentId == j && requestId == r && caller == other
    case _ => false
  }

  /** A judgment stays where it is found, with its tenant. */
  lemma JudgmentStays(p: Primitives, ops: seq<Op>, n: nat, id: string)
    requires LegalRun(p, ops) && n <= |ops| && FindJudgment(Run(p, ops[..n]).judgments, id) >= 0
    ensures
      var js, later := Run(p, ops[..n]).judgments, Run(p, ops).judgments;
      FindJudgment(later, id) == FindJudgment(js, id) && SameSubject(js[FindJudgment(js, id)], later[FindJudgment(js, id)])
  {
    hide Run, LegalRun, Inv;
    StoreTheorems.JudgmentsMoveForward(p, ops, n);
    var js, later := Run(p, ops[..n]).judgments, Run(p, ops).judgments;
    assert SameSubject(js[FindJudgment(js, id)], later[FindJudgment(js, id)]);
    DistinctInRun(p, ops);
    FindJudgmentAt(later, FindJudgment(js, id));
  }

  lemma DistinctInRun(p: Primitives, ops: seq<Op>)
    requires LegalRun(p, ops)
    ensures DistinctJudgments(Run(p, ops).judgments) && JudgmentLedgerOk(Run(p, ops))
  {
    RunKeepsInv(p, ops);
  }

  /** A repeated request makes the same claim, at any later point of a run. */
  lemma ClaimStays(p: Primitives, ops: seq<Op>, n: nat, op: Op, again: Op)
    requires LegalRun(p, ops) && n <= |ops| && SameRequest(op, again) && ClaimOf(p, Run(p, ops[..n]), op).Some?
    ensures ClaimOf(p, Run(p, ops), again) == ClaimOf(p, Run(p, ops[..n]), op)
  {
    hide Run, LegalRun, LedgerKey, ProposeHash, AdjudicateHash;
    match op
    case Propose(c, caller, _, _) =>
      RunKeepsSubjects(p, ops, n, c.fromId);
      RunKeepsSubjects(p, ops, n, c.toId);
    case Withdraw(judgmentId, _, _, _, _) =>
      JudgmentStays(p, ops, n, judgmentId);
    case _ =>
  }

  /** A verdict or withdrawal that succeeded, repeated at any later point of the run, is answered with its judgment
      as it is now and its stored event, flagged as a replay, and changes nothing. Repeating a confirmation as a
      rejection, or the other way round, is such a repetition too. */
  lemma DecisionsReplay(p: Primitives, ops: seq<Op>, n: nat, result: JudgmentAnswer, again: Op)
    requires LegalRun(p, ops) && n < |ops| && (ops[n].Adjudicate? || ops[n].Withdraw?) && SameRequest(ops[n], again)
    requires Answered(p, Run(p, ops[..n]), ops[n]).1 == Ok(result)
    ensures
      var s := Run(p, ops);
      var at := FindJudgment(s.judgments, result.judgment.id);
      at >= 0 && Answered(p, s, again) == (s, Ok(JudgmentAnswer(s.judgments[at], result.eventId, true)))
  {
    hide Run, LegalRun, Answered, ClaimOf, Inv, Step;
    var claim := ReservedInRun(p, ops, n, result);
    ClaimStays(p, ops, n, ops[n], again);
    DistinctInRun(p, ops);
    EventAnswers(p, Run(p, ops), again);
  }

  /** The reservation that a successful operation of a run leaves, seen from the end of the run. */
  lemma ReservedInRun(p: Primitives, ops: seq<Op>, n: nat, result: JudgmentAnswer) returns (claim: Claim)
    requires LegalRun(p, ops) && n < |ops| && !MemoryOp(ops[n])
    requires Answered(p, Run(p, ops[..n]), ops[n]).1 == Ok(result)
    ensures ClaimOf(p, Run(p, ops[..n]), ops[n]) == Some(claim)
    ensures
      var ledger := Run(p, ops).judgmentLedger;
      && claim.key in ledger && BoundTo(ledger[claim.key], claim.commandHash, claim.binding)
      && (result.eventId.Some? || ledger[claim.key].eventId.None? ==>
            ledger[claim.key].judgmentId == result.judgment.id && ledger[claim.key].eventId == result.eventId)
      && (!ops[n].Propose? ==> result.eventId.Some?)
  {
    var upTo := ops[..n + 1];
    PrefixIsLegal(p, ops, n);
    PrefixIsLegal(p, ops, n + 1);
    assert upTo[..|upTo| - 1] == ops[..n] && upTo[|upTo| - 1] == ops[n];
    RunKeepsInv(p, ops[..n]);
    var s := Run(p, ops[..n]);
    assert LegalOp(s, ops[n]);
    AnswerReserves(p, s, ops[n], result);
    claim := ClaimOf(p, s, ops[n]).value;
    assert Run(p, upTo) == Step(p, s, ops[n]);
    assert Answered(p, s, ops[n]).0 == Step(p, s, ops[n]);
    ReservationStays(p, ops, n + 1, claim.key);
  }

  /** A proposal repeated at any later point changes nothing and is answered with the judgment under its reservation:
      its own one as it is now, unless a decision took the reservation over. */
  lemma ProposalsReplay(p: Primitives, ops: seq<Op>, n: nat, result: JudgmentAnswer, again: Op)
    requires LegalRun(p, ops) && n < |ops| && ops[n].Propose? && SameRequest(ops[n], again)
    requires Answered(p, Run(p, ops[..n]), ops[n]).1 == Ok(result)
    ensures ClaimOf(p, Run(p, ops), again).Some? && ClaimOf(p, Run(p, ops), again).value.key in Run(p, ops).judgmentLedger
    ensures
      var s := Run(p, ops);
      var r := s.judgmentLedger[ClaimOf(p, s, again).value.key];
      var at := FindJudgment(s.judgments, r.judgmentId);
      && at >= 0 && Answered(p, s, again) == (s, Ok(JudgmentAnswer(s.judgments[at], None, true)))
      && (r.eventId.None? ==> s.judgments[at].id == result.judgment.id)
  {
    hide Run, LegalRun, Inv, ProposalCheck, LedgerKey, ProposeHash, MemoryInv;
    var claim := ReservedInRun(p, ops, n, result);
    ClaimStays(p, ops, n, ops[n], again);
    DistinctInRun(p, ops);
  }

  /** Reusing the request of an operation that succeeded, for another command or by another caller, always
      conflicts and changes nothing, at any later point and for any judgment operation. */
  lemma ReusedRequestsConflict(p: Primitives, ops: seq<Op>, n: nat, result: JudgmentAnswer, other: Op)
    requires LegalRun(p, ops) && n < |ops| && !MemoryOp(ops[n]) && !MemoryOp(other)
    requires Answered(p, Run(p, ops[..n]), ops[n]).1 == Ok(result)
    requires ClaimOf(p, Run(p, ops[..n]), ops[n]).Some? && ClaimOf(p, Run(p, ops), other).Some?
    requires
      var claim, reuse := ClaimOf(p, Run(p, ops[..n]), ops[n]).value, ClaimOf(p, Run(p, ops), other).value;
      reuse.key == claim.key && (reuse.commandHash != claim.commandHash || reuse.binding != claim.binding)
    ensures Answered(p, Run(p, ops), other) == (Run(p, ops), Err(IdempotencyConflict))
  {
    hide Run, LegalRun, Answered, ClaimOf, Inv;
    var claim := ReservedInRun(p, ops, n, result);
    OtherClaimsConflict(p, Run(p, ops), other);
  }

  // ---------------------------------------------------------- proposals' requests

  /** Reservations without an event come from proposals. */
  lemma {:induction false} EventlessIsProposed(p: Primitives, ops: seq<Op>, key: string) returns (k: nat)
    requires LegalRun(p, ops) && key in Run(p, ops).judgmentLedger && Run(p, ops).judgmentLedger[key].eventId.None?
    ensures k < |ops| && ops[k].Propose?
    ensures
      var r := Run(p, ops).judgmentLedger[key];
      r.commandHash == ProposeHash(p, ops[k].proposal) && r.binding == p.proposerBinding(ops[k].caller)
  {
    var shorter, op := ops[..|ops| - 1], ops[|ops| - 1];
    var s := Run(p, shorter);
    RunKeepsInv(p, shorter);
    if key in s.judgmentLedger {
      ReservationChangesIff(p, s, op, key);
      k := EventlessIsProposed(p, shorter, key);
    } else {
      NewEventless(p, s, op, key);
      k := |ops| - 1;
    }
  }

  lemma NewEventless(p: Primitives, s: State, op: Op, key: string)
    requires key !in s.judgmentLedger && key in Step(p, s, op).judgmentLedger
    requires Step(p, s, op).judgmentLedger[key].eventId.None?
    ensures op.Propose?
    ensures
      var r := Step(p, s, op).judgmentLedger[key];
      r.commandHash == ProposeHash(p, op.proposal) && r.binding == p.proposerBinding(op.caller)
  {
    hide Step, ProposeHash;
    if MemoryOp(op) {
      MemoryOpKeepsJudgments(p, s, op, Step(p, s, op));
    } else if !op.Propose? {
      DecisionsBringEvents(p, s, op, key);
    } else {
      ProposalsReserve(p, s, op, key);
    }
  }

  lemma ProposalsReserve(p: Primitives, s: State, op: Op, key: string)
    requires op.Propose? && key !in s.judgmentLedger && key in Step(p, s, op).judgmentLedger
    ensures
      var r := Step(p, s, op).judgmentLedger[key];
      r.commandHash == ProposeHash(p, op.proposal) && r.binding == p.proposerBinding(op.caller)
  {
    hide ProposeHash, LedgerKey, ProposalCheck;
  }

  lemma DecisionsBringEvents(p: Primitives, s: State, op: Op, key: string)
    requires (op.Adjudicate? || op.Withdraw?) && key !in s.judgmentLedger && key in Step(p, s, op).judgmentLedger
    ensures Step(p, s, op).judgmentLedger[key].eventId.Some?
  {
    hide LedgerKey, AdjudicationCheck, AdjudicateStep, AdjudicateHash, AdjudicatedPayload, VerdictState;
    if op.Adjudicate? {
      var Adjudicate(v, c, who, policy, eventId, supersedeEventId, now) := op;
      VerdictCommitsIff(p, s, v, c, who, policy, eventId, supersedeEventId, now);
    }
  }

  /** Over the source's own hashes and bindings no decision takes a proposal's reservation over, as long as subject
      ids and judgment ids carry no NUL: a verdict never does, and a withdrawal only through a digest collision. */
  lemma ProposalReservationsAreSafe(f: K.Platform, ops: seq<Op>, op: Op, key: string) returns (k: nat)
    requires LegalRun(K.Kernel(f), ops) && Overwrites(K.Kernel(f), Run(K.Kernel(f), ops), op, key)
    requires op.Adjudicate? ==> NulFree(op.who.subjectId)
    requires op.Withdraw? ==> NulFree(op.judgmentId)
    ensures op.Withdraw? && k < |ops| && ops[k].Propose?
    ensures
      var c := ops[k].proposal;
      K.Collision(f, JoinNul([op.judgmentId]),
                  JoinNul([c.fromId, c.toId, K.RelationName(c.relation), c.reason, c.predecessorId]))
  {
    hide Run, LegalRun, VerdictGuards, WithdrawalGuards, LedgerKey;
    var p := K.Kernel(f);
    k := EventlessIsProposed(p, ops, key);
    var c, caller := ops[k].proposal, ops[k].caller;
    var r := Run(p, ops).judgmentLedger[key];
    var parts := [c.fromId, c.toId, K.RelationName(c.relation), c.reason, c.predecessorId];
    JoinHasNul(parts);
    JoinHasNul([caller.system, caller.actorId, E.KindName(caller.actorKind), caller.session]);
    assert r.binding == K.ProposerBinding(caller);
    assert r.commandHash == f.digest(JoinNul(parts));
    assert JoinNul([if op.Withdraw? then op.judgmentId else ""]) == if op.Withdraw? then op.judgmentId else "";
  }

  lemma JoinHasNul(parts: seq<string>)
    requires |parts| > 1
    ensures NUL in JoinNul(parts)
  {
    assert JoinNul(parts)[|parts[0]|] == NUL;
  }
}
