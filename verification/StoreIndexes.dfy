/** The two indexes over the stored rows: positions by id and positions by chain key. */
module StoreIndexes {
  import opened Records
  import opened StoreModel
  import opened JudgmentModel
  import opened RevisionChains
  import opened StatusLog

  /** The positions of the rows under a chain key, in insertion order. */
  function Positions(p: Primitives, ms: seq<Memory>, key: string): (at: seq<nat>)
    ensures forall k | 0 <= k < |at| :: at[k] < |ms|
    ensures LatestAt(p, ms, key) == if at == [] then -1 else at[|at| - 1]
  {
    if ms == [] then []
    else
      var earlier := Positions(p, ms[..|ms| - 1], key);
      if KeyOf(p, ms[|ms| - 1]) == key then earlier + [|ms| - 1] else earlier
  }

  function ChainAt(chains: map<string, seq<nat>>, key: string): seq<nat> {
    if key in chains then chains[key] else []
  }

  ghost predicate ChainIndexOk(p: Primitives, ms: seq<Memory>, chains: map<string, seq<nat>>) {
    forall key :: ChainAt(chains, key) == Positions(p, ms, key)
  }

  ghost predicate IdIndexOk(ms: seq<Memory>, byId: map<string, nat>) {
    && (forall id | id in byId :: byId[id] == FindMemory(ms, id))
    && (forall i | 0 <= i < |ms| :: ms[i].id in byId)
  }

  ghost predicate IndexesOk(p: Primitives, ms: seq<Memory>, chains: map<string, seq<nat>>, byId: map<string, nat>) {
    ChainIndexOk(p, ms, chains) && IdIndexOk(ms, byId) && DistinctIds(ms)
  }

  /** Looking an id up in the index is finding its row. */
  lemma IndexFinds(ms: seq<Memory>, byId: map<string, nat>, id: string)
    requires IdIndexOk(ms, byId)
    ensures id in byId <==> FindMemory(ms, id) >= 0
    ensures id in byId ==> byId[id] == FindMemory(ms, id)
  {
    if FindMemory(ms, id) >= 0 {
      assert ms[FindMemory(ms, id)].id in byId;
    }
  }

  lemma {:induction false} PositionsAfterUpdate(p: Primitives, ms: seq<Memory>, at: nat, m: Memory, key: string)
    requires at < |ms| && KeyOf(p, m) == KeyOf(p, ms[at])
    ensures Positions(p, ms[at := m], key) == Positions(p, ms, key)
  {
    var before, after := ms[..|ms| - 1], ms[at := m];
    if at == |ms| - 1 {
      assert after[..|ms| - 1] == before;
    } else {
      PositionsAfterUpdate(p, before, at, m, key);
      assert after[..|ms| - 1] == before[at := m];
    }
  }

  /** Rewriting a row without touching its id, topic or scope needs no index update. */
  lemma RewriteKeepsIndexes(p: Primitives, ms: seq<Memory>, chains: map<string, seq<nat>>, byId: map<string, nat>, at: nat, m: Memory)
    requires IndexesOk(p, ms, chains, byId) && at < |ms| && SameIdentity(ms[at], m)
    ensures IndexesOk(p, ms[at := m], chains, byId)
  {
    forall key ensures ChainAt(chains, key) == Positions(p, ms[at := m], key) {
      PositionsAfterUpdate(p, ms, at, m, key);
    }
    forall id | id in byId ensures byId[id] == FindMemory(ms[at := m], id) {
      FindAfterUpdate(ms, at, m, id);
    }
  }

  lemma AppendKeepsChains(p: Primitives, ms: seq<Memory>, chains: map<string, seq<nat>>, m: Memory)
    requires ChainIndexOk(p, ms, chains)
    ensures ChainIndexOk(p, ms + [m], chains[KeyOf(p, m) := ChainAt(chains, KeyOf(p, m)) + [|ms|]])
  {
    var key, grown := KeyOf(p, m), ms + [m];
    var chains' := chains[key := ChainAt(chains, key) + [|ms|]];
    assert grown[..|ms|] == ms;
    forall other ensures ChainAt(chains', other) == Positions(p, grown, other) {
      assert ChainAt(chains, other) == Positions(p, ms, other);
    }
  }

  lemma AppendKeepsIds(ms: seq<Memory>, byId: map<string, nat>, m: Memory)
    requires IdIndexOk(ms, byId) && m.id !in byId
    ensures IdIndexOk(ms + [m], byId[m.id := |ms|])
  {
    var grown, byId' := ms + [m], byId[m.id := |ms|];
    assert grown[..|ms|] == ms;
    forall id | id in byId' ensures byId'[id] == FindMemory(grown, id) {
      if id != m.id {
        FindAfterAppend(ms, m, id);
      }
    }
  }

  /** Appending a row appends its position to its chain and its id to the id index. */
  lemma AppendKeepsIndexes(p: Primitives, ms: seq<Memory>, chains: map<string, seq<nat>>, byId: map<string, nat>, m: Memory)
    requires IndexesOk(p, ms, chains, byId) && m.id != "" && m.id !in byId
    ensures
      var key := KeyOf(p, m);
      IndexesOk(p, ms + [m], chains[key := ChainAt(chains, key) + [|ms|]], byId[m.id := |ms|])
  {
    AppendKeepsChains(p, ms, chains, m);
    AppendKeepsIds(ms, byId, m);
    IndexFinds(ms, byId, m.id);
  }

  /** The rows and relations of a superseding save. */
  lemma SupersedingSave(p: Primitives, s: State, m: Memory, latest: nat)
    requires latest == LatestAt(p, s.memories, KeyOf(p, m)) && CanVoid(s.memories[latest].status)
    ensures StoredState(p, s, m) ==
            s.(memories := s.memories[latest := Replacing(s.memories[latest], m)] + [m],
               relations := s.relations + [SupersedeRelation(s.memories[latest], m)])
  {
  }

  // ------------------------------------------------------------ reservations

  ghost predicate AllCompleted(ledger: map<string, Reservation>) {
    forall key | key in ledger :: ledger[key].result.Some?
  }

  /** All reservations are completed, but perhaps the one under the key. */
  ghost predicate CompletedBut(ledger: map<string, Reservation>, key: string) {
    forall other | other in ledger && other != key :: ledger[other].result.Some?
  }

  ghost predicate AllJudgmentsCompleted(ledger: map<string, JudgmentReservation>) {
    forall key | key in ledger :: ledger[key].completed
  }

  /** The state with an approval's request reserved and not yet completed. */
  function ReserveApproval(p: Primitives, s: State, c: ApproveCommand, who: Principal): State {
    s.(approvalLedger := s.approvalLedger[LedgerKey(who.tenantId, c.requestId) :=
         Reservation(CommandHash(p, c), who.subjectId, who.membershipId, None)])
  }

  function ReserveReview(p: Primitives, s: State, c: ApproveCommand, who: Principal): State {
    s.(reviewLedger := s.reviewLedger[LedgerKey(who.tenantId, c.requestId) :=
         Reservation(CommandHash(p, c), who.subjectId, who.membershipId, None)])
  }

  /** The checks read the rows only, not the ledgers. */
  lemma ApprovalCheckReadsRows(p: Primitives, s: State, t: State, c: ApproveCommand, who: Principal, policy: ApprovalPolicy)
    requires t.memories == s.memories
    ensures ApprovalCheck(p, t, c, who, policy) == ApprovalCheck(p, s, c, who, policy)
  {
    assert ScopeCheck(t, c.memoryId, who) == ScopeCheck(s, c.memoryId, who);
  }

  lemma ReviewCheckReadsRows(p: Primitives, s: State, t: State, c: ApproveCommand, who: Principal, d: Decision)
    requires t.memories == s.memories
    ensures ReviewCheck(p, t, c, who, d) == ReviewCheck(p, s, c, who, d)
  {
    assert ScopeCheck(t, c.memoryId, who) == ScopeCheck(s, c.memoryId, who);
  }

  /** Completing an approval over its reservation is completing it over the ledger as it was. */
  lemma ApprovalOverwrites(p: Primitives, s: State, at: nat, c: ApproveCommand, who: Principal,
                           policyVersion: string, eventId: string, now: string)
    requires at < |s.memories| && s.memories[at].scope.Company? && s.memories[at].status == PendingReview
    ensures CommitApproval(p, ReserveApproval(p, s, c, who), at, c, who, policyVersion, eventId, now) ==
            CommitApproval(p, s, at, c, who, policyVersion, eventId, now)
  {
    var key, reserved := LedgerKey(who.tenantId, c.requestId), ReserveApproval(p, s, c, who);
    var decided := Decide(p, s, at, Approved, c, who, policyVersion, now);
    assert Decide(p, reserved, at, Approved, c, who, policyVersion, now) == decided.(approvalLedger := reserved.approvalLedger);
    var e := EventFor(p, c, who, s.memories[at], WithStatus(p, s.memories[at], Approved), policyVersion, eventId, now);
    assert reserved.approvalLedger[key := Completed(p, c, who, e)] == s.approvalLedger[key := Completed(p, c, who, e)];
  }

  lemma ReviewOverwrites(p: Primitives, s: State, at: nat, c: ApproveCommand, who: Principal, d: Decision,
                         eventId: string, now: string)
    requires at < |s.memories| && s.memories[at].scope.Company? && s.memories[at].status == PendingReview
    ensures CommitReview(p, ReserveReview(p, s, c, who), at, c, who, d, eventId, now) ==
            CommitReview(p, s, at, c, who, d, eventId, now)
  {
    var key, reserved := LedgerKey(who.tenantId, c.requestId), ReserveReview(p, s, c, who);
    var decided := Decide(p, s, at, StatusOf(d), c, who, KERNEL_POLICY_VERSION, now);
    assert Decide(p, reserved, at, StatusOf(d), c, who, KERNEL_POLICY_VERSION, now) == decided.(reviewLedger := reserved.reviewLedger);
    var e := EventFor(p, c, who, s.memories[at], WithStatus(p, s.memories[at], StatusOf(d)), KERNEL_POLICY_VERSION, eventId, now);
    assert reserved.reviewLedger[key := Completed(p, c, who, e)] == s.reviewLedger[key := Completed(p, c, who, e)];
  }

  ghost predicate JudgmentsCompletedBut(ledger: map<string, JudgmentReservation>, key: string) {
    forall other | other in ledger && other != key :: ledger[other].completed
  }

  /** The ledger is `was` but perhaps for the reservation under the key. */
  ghost predicate SameBut(ledger: map<string, JudgmentReservation>, was: map<string, JudgmentReservation>, key: string) {
    forall other | other != key ::
      (other in ledger <==> other in was) && (other in was ==> ledger[other] == was[other])
  }

  lemma OverwriteSame(ledger: map<string, JudgmentReservation>, was: map<string, JudgmentReservation>, key: string, r: JudgmentReservation)
    requires SameBut(ledger, was, key)
    ensures ledger[key := r] == was[key := r]
    ensures AllJudgmentsCompleted(was) && r.completed ==> AllJudgmentsCompleted(ledger[key := r])
  {
    assert ledger[key := r].Keys == was[key := r].Keys;
  }

  // --------------------------------------------------------------- judgments

  ghost predicate JudgmentIndexOk(js: seq<Judgment>, byId: map<string, nat>) {
    && (forall id | id in byId :: byId[id] == FindJudgment(js, id))
    && (forall i | 0 <= i < |js| :: js[i].id in byId)
  }

  lemma JudgmentIndexFinds(js: seq<Judgment>, byId: map<string, nat>, id: string)
    requires JudgmentIndexOk(js, byId)
    ensures id in byId <==> FindJudgment(js, id) >= 0
    ensures id in byId ==> byId[id] == FindJudgment(js, id)
  {
    if FindJudgment(js, id) >= 0 {
      assert js[FindJudgment(js, id)].id in byId;
    }
  }

  lemma {:induction false} FindJudgmentAfterUpdate(js: seq<Judgment>, at: nat, j: Judgment, id: string)
    requires at < |js| && j.id == js[at].id
    ensures FindJudgment(js[at := j], id) == FindJudgment(js, id)
  {
    var before, after := js[..|js| - 1], js[at := j];
    if at == |js| - 1 {
      assert after[..|js| - 1] == before;
    } else {
      FindJudgmentAfterUpdate(before, at, j, id);
      assert after[..|js| - 1] == before[at := j];
    }
  }

  lemma RewriteKeepsJudgmentIndex(js: seq<Judgment>, byId: map<string, nat>, at: nat, j: Judgment)
    requires JudgmentIndexOk(js, byId) && at < |js| && j.id == js[at].id
    ensures JudgmentIndexOk(js[at := j], byId)
  {
    forall id | id in byId ensures byId[id] == FindJudgment(js[at := j], id) {
      FindJudgmentAfterUpdate(js, at, j, id);
    }
  }

  lemma AppendKeepsJudgmentIndex(js: seq<Judgment>, byId: map<string, nat>, j: Judgment)
    requires JudgmentIndexOk(js, byId) && j.id !in byId
    ensures JudgmentIndexOk(js + [j], byId[j.id := |js|])
  {
    var grown := js + [j];
    assert grown[..|js|] == js;
  }

  lemma ProposalCheckReadsRows(p: Primitives, s: State, t: State, c: ProposeCommand, caller: Source, tuple: Tuple)
    requires t.judgments == s.judgments
    ensures ProposalCheck(p, t, c, caller, tuple) == ProposalCheck(p, s, c, caller, tuple)
  {
    assert PredecessorCheck(p, t, c, caller) == PredecessorCheck(p, s, c, caller);
  }

  lemma AdjudicationCheckReadsRows(p: Primitives, s: State, t: State, v: Verdict, c: AdjudicateCommand, who: Principal,
                                   policy: JudgmentPolicy)
    requires t.judgments == s.judgments
    ensures AdjudicationCheck(p, t, v, c, who, policy) == AdjudicationCheck(p, s, v, c, who, policy)
  {
  }

  /** Completing a proposal over its reservation is completing it over the ledger as it was. */
  lemma ProposalOverwrites(p: Primitives, s: State, c: ProposeCommand, caller: Source, j: Judgment, replaced: string, now: string)
    ensures
      var reserved := s.(judgmentLedger := s.judgmentLedger[LedgerKey(j.tenantId, c.requestId) :=
                           JudgmentReservation(ProposeHash(p, c), p.proposerBinding(caller), j.id, None, false)]);
      CommitProposal(p, reserved, c, caller, j, replaced, now) == CommitProposal(p, s, c, caller, j, replaced, now)
  {
    var key, hash, binding := LedgerKey(j.tenantId, c.requestId), ProposeHash(p, c), p.proposerBinding(caller);
    var reserved, completed := JudgmentReservation(hash, binding, j.id, None, false), JudgmentReservation(hash, binding, j.id, None, true);
    assert s.judgmentLedger[key := reserved][key := completed] == s.judgmentLedger[key := completed];
  }

  /** Completing a withdrawal over its reservation is completing it over the ledger as it was. */
  lemma WithdrawalOverwrites(p: Primitives, s: State, reserved: State, at: nat, requestId: string, caller: Source,
                             eventId: string, now: string)
    requires at < |s.judgments| && reserved == s.(judgmentLedger := reserved.judgmentLedger)
    requires SameBut(reserved.judgmentLedger, s.judgmentLedger, LedgerKey(s.judgments[at].tenantId, requestId))
    ensures CommitWithdrawal(p, reserved, at, requestId, caller, eventId, now) ==
            CommitWithdrawal(p, s, at, requestId, caller, eventId, now)
  {
    var j := s.judgments[at];
    OverwriteSame(reserved.judgmentLedger, s.judgmentLedger, LedgerKey(j.tenantId, requestId),
                  JudgmentReservation(p.commandHash([j.id]), p.proposerBinding(caller), j.id, Some(eventId), true));
  }

  /** Completing a verdict over its reservation is completing it over the ledger as it was. */
  lemma VerdictOverwrites(p: Primitives, s: State, reserved: State, v: Verdict, c: AdjudicateCommand, who: Principal, at: nat,
                          policyVersion: string, pred: int, eventId: string, supersedeEventId: string, now: string)
    requires at < |s.judgments| && -1 <= pred < |s.judgments|
    requires reserved == s.(judgmentLedger := reserved.judgmentLedger)
    requires SameBut(reserved.judgmentLedger, s.judgmentLedger, LedgerKey(who.tenantId, c.requestId))
    ensures CommitVerdict(p, reserved, v, c, who, at, policyVersion, pred, eventId, supersedeEventId, now) ==
            CommitVerdict(p, s, v, c, who, at, policyVersion, pred, eventId, supersedeEventId, now)
  {
    var key := LedgerKey(who.tenantId, c.requestId);
    var completed := JudgmentReservation(AdjudicateHash(p, c), who.subjectId, s.judgments[at].id, Some(eventId), true);
    OverwriteSame(reserved.judgmentLedger, s.judgmentLedger, key, completed);
    var before := s.judgments[at];
    var after := Adjudicated(p, before, v, c, who, policyVersion, now);
    var decided := VerdictState(p, s, v, at, after, pred, who, c.requestId, eventId, supersedeEventId, now);
    assert VerdictState(p, reserved, v, at, after, pred, who, c.requestId, eventId, supersedeEventId, now) ==
           decided.(judgmentLedger := reserved.judgmentLedger);
    var payload := AdjudicatedPayload(p, s.memories, before, after, who, now);
    assert Emit(p, decided.(judgmentLedger := reserved.judgmentLedger), payload) ==
           Emit(p, decided, payload).(judgmentLedger := reserved.judgmentLedger);
  }

  ghost predicate RestOk(js: seq<Judgment>, byId: map<string, nat>, approvals: map<string, Reservation>,
                         reviews: map<string, Reservation>, ledger: map<string, JudgmentReservation>)
  {
    JudgmentIndexOk(js, byId) && AllCompleted(approvals) && AllCompleted(reviews) && AllJudgmentsCompleted(ledger)
  }
}
