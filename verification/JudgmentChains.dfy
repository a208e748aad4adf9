/** Judgments: one open proposal per tuple, legal status moves, and corrections that always
    route to a later judgment. */
module JudgmentChains {
  import opened Records
  import opened StoreModel
  import opened JudgmentModel

  /** The adjacency table of the judgment machine. */
  predicate LegalMove(from: JudgmentStatus, to: JudgmentStatus) {
    match from
    case Proposed => to != Proposed
    case Confirmed => to == Replaced
    case _ => false
  }

  predicate SameSubject(a: Judgment, b: Judgment) {
    a.id == b.id && TupleOf(a) == TupleOf(b) && a.fiscalPeriodId == b.fiscalPeriodId && a.predecessorId == b.predecessorId && a.proposer == b.proposer
  }

  /** Rows are only appended, and each row's status stays or moves along the table. */
  ghost predicate Advances(before: seq<Judgment>, after: seq<Judgment>) {
    && |before| <= |after|
    && (forall i | 0 <= i < |before| ::
          SameSubject(before[i], after[i]) &&
          (before[i].status == after[i].status || LegalMove(before[i].status, after[i].status)))
    && (forall i | |before| <= i < |after| :: after[i].status == Proposed)
  }

  ghost predicate DistinctJudgments(js: seq<Judgment>) {
    && (forall i | 0 <= i < |js| :: js[i].id != "")
    && (forall i, j | 0 <= i < j < |js| :: js[i].id != js[j].id)
  }

  ghost predicate OneOpenPerTuple(js: seq<Judgment>) {
    forall i, j | 0 <= i < j < |js| :: !(js[i].status == Proposed && js[j].status == Proposed && TupleOf(js[i]) == TupleOf(js[j]))
  }

  /** A declared predecessor is an earlier judgment of the same tuple. */
  predicate PredecessorEarlier(js: seq<Judgment>, j: nat)
    requires j < |js|
  {
    js[j].predecessorId != "" ==>
      var i := FindJudgment(js, js[j].predecessorId);
      0 <= i < j && js[i].fromId == js[j].fromId && js[i].toId == js[j].toId && js[i].relation == js[j].relation
  }

  /** A replaced judgment points at a later one that names it as predecessor; no other points anywhere. */
  predicate RoutedOn(js: seq<Judgment>, i: nat)
    requires i < |js|
  {
    if js[i].status == Replaced then
      var j := FindJudgment(js, js[i].supersedesId);
      i < j && js[j].predecessorId == js[i].id
    else js[i].supersedesId == ""
  }

  ghost predicate JudgmentsOk(js: seq<Judgment>) {
    && DistinctJudgments(js)
    && OneOpenPerTuple(js)
    && (forall j | 0 <= j < |js| :: PredecessorEarlier(js, j))
    && (forall i | 0 <= i < |js| :: RoutedOn(js, i))
  }

  // ---------------------------------------------------------------- find facts

  lemma FindJudgmentAt(js: seq<Judgment>, at: nat)
    requires at < |js| && DistinctJudgments(js)
    ensures FindJudgment(js, js[at].id) == at
  {
  }

  /** Finding depends on the ids only, and appended rows with other ids do not matter. */
  lemma {:induction false} FindStable(js: seq<Judgment>, after: seq<Judgment>, id: string)
    requires |js| <= |after| && forall i | 0 <= i < |js| :: js[i].id == after[i].id
    requires forall i | |js| <= i < |after| :: after[i].id != id
    ensures FindJudgment(after, id) == FindJudgment(js, id)
    decreases |after|
  {
    if |js| < |after| {
      FindStable(js, after[..|after| - 1], id);
    } else if js != [] {
      FindStable(js[..|js| - 1], after[..|after| - 1], id);
    }
  }

  /** Rows keep their subjects, and the appended rows are new. */
  ghost predicate Extends(js: seq<Judgment>, after: seq<Judgment>) {
    && |js| <= |after|
    && (forall i | 0 <= i < |js| :: SameSubject(js[i], after[i]))
    && (forall i | |js| <= i < |after| :: FindJudgment(js, after[i].id) < 0)
  }

  lemma PredecessorStays(js: seq<Judgment>, after: seq<Judgment>, j: nat)
    requires Extends(js, after) && j < |js| && PredecessorEarlier(js, j)
    ensures PredecessorEarlier(after, j)
  {
    if js[j].predecessorId != "" {
      FindStable(js, after, js[j].predecessorId);
      var i := FindJudgment(js, js[j].predecessorId);
      assert SameSubject(js[i], after[i]) && SameSubject(js[j], after[j]);
    }
  }

  lemma RouteStays(js: seq<Judgment>, after: seq<Judgment>, i: nat)
    requires Extends(js, after) && i < |js| && RoutedOn(js, i)
    requires after[i].status == Replaced <==> js[i].status == Replaced
    requires after[i].supersedesId == js[i].supersedesId
    ensures RoutedOn(after, i)
  {
    if js[i].status == Replaced {
      FindStable(js, after, js[i].supersedesId);
      var j := FindJudgment(js, js[i].supersedesId);
      assert SameSubject(js[i], after[i]) && SameSubject(js[j], after[j]);
    }
  }

  // -------------------------------------------------------------- preservation

  /** Rewriting one row, keeping its subject, keeps the judgments well formed when the new row is
      routed and no new proposal opens. */
  lemma RewriteKeepsJudgments(js: seq<Judgment>, at: nat, j: Judgment)
    requires JudgmentsOk(js) && at < |js| && SameSubject(js[at], j)
    requires j.status == Proposed ==> js[at].status == Proposed
    requires RoutedOn(js[at := j], at)
    ensures JudgmentsOk(js[at := j])
  {
    var after := js[at := j];
    forall i | 0 <= i < |after| ensures PredecessorEarlier(after, i) {
      PredecessorStays(js, after, i);
    }
    forall i | 0 <= i < |after| ensures RoutedOn(after, i) {
      if i != at {
        RouteStays(js, after, i);
      }
    }
  }

  predicate FreshProposal(js: seq<Judgment>, j: Judgment) {
    && j.id != "" && FindJudgment(js, j.id) < 0 && j.status == Proposed && j.supersedesId == ""
    && (j.predecessorId != "" ==>
          var i := FindJudgment(js, j.predecessorId);
          i >= 0 && js[i].fromId == j.fromId && js[i].toId == j.toId && js[i].relation == j.relation)
  }

  lemma NewPredecessorEarlier(js: seq<Judgment>, after: seq<Judgment>, j: Judgment)
    requires FreshProposal(js, j) && Extends(js, after) && |after| == |js| + 1 && after[|js|] == j
    ensures PredecessorEarlier(after, |js|)
  {
    if j.predecessorId != "" {
      FindStable(js, after, j.predecessorId);
      var i := FindJudgment(js, j.predecessorId);
      assert SameSubject(js[i], after[i]);
    }
  }

  /** A fresh proposal for a tuple without an open one keeps the judgments well formed. */
  lemma AppendKeepsJudgments(js: seq<Judgment>, j: Judgment)
    requires JudgmentsOk(js) && FreshProposal(js, j)
    requires forall i | 0 <= i < |js| :: !OpenFor(js[i], TupleOf(j))
    ensures JudgmentsOk(js + [j])
  {
    var after := js + [j];
    forall i | 0 <= i < |after| ensures PredecessorEarlier(after, i) && RoutedOn(after, i) {
      if i < |js| {
        PredecessorStays(js, after, i);
        RouteStays(js, after, i);
      } else {
        NewPredecessorEarlier(js, after, j);
      }
    }
  }

  /** A proposal that replaces its proposed predecessor: the tuple is free again for the new row. */
  lemma ReplaceKeepsJudgments(js: seq<Judgment>, at: nat, replaced: Judgment, j: Judgment)
    requires JudgmentsOk(js) && at < |js| && SameSubject(js[at], replaced)
    requires replaced.status == Replaced && replaced.supersedesId == j.id
    requires FreshProposal(js, j) && j.predecessorId == js[at].id
    requires forall i | 0 <= i < |js| && i != at :: !OpenFor(js[i], TupleOf(j))
    ensures JudgmentsOk(js[at := replaced] + [j])
  {
    var after := js[at := replaced] + [j];
    forall i | 0 <= i < |after| ensures PredecessorEarlier(after, i) {
      if i < |js| {
        PredecessorStays(js, after, i);
      } else {
        NewPredecessorEarlier(js, after, j);
      }
    }
    forall i | 0 <= i < |after| ensures RoutedOn(after, i) {
      if i < |js| && i != at {
        RouteStays(js, after, i);
      }
    }
    assert OneOpenPerTuple(after);
  }

  // ------------------------------------------------------------------- steps

  /** What the checks of a proposal establish. */
  predicate Admissible(js: seq<Judgment>, j: Judgment, replaced: string) {
    && FreshProposal(js, j)
    && (replaced != "" ==>
          replaced == j.predecessorId && FindJudgment(js, replaced) >= 0 && js[FindJudgment(js, replaced)].status == Proposed)
    && (var open := OpenAt(js, TupleOf(j)); open >= 0 ==> js[open].id == replaced)
  }

  lemma ProposalKeepsJudgments(js: seq<Judgment>, j: Judgment, replaced: string, now: string)
    requires JudgmentsOk(js) && Admissible(js, j, replaced)
    ensures JudgmentsOk(WithProposal(js, j, replaced, now))
    ensures Advances(js, WithProposal(js, j, replaced, now))
  {
    var open := OpenAt(js, TupleOf(j));
    if replaced == "" {
      AppendKeepsJudgments(js, j);
    } else {
      var at := FindJudgment(js, replaced);
      forall i | 0 <= i < |js| && i != at ensures !OpenFor(js[i], TupleOf(j)) {
        if open >= 0 {
          FindJudgmentAt(js, open);
        }
      }
      ReplaceKeepsJudgments(js, at, js[at].(status := Replaced, supersedesId := j.id, decidedAt := now, updatedAt := now), j);
    }
  }

  /** What a proposal that commits adds. */
  lemma ProposeShape(p: Primitives, s: State, c: ProposeCommand, caller: Source, id: string, now: string)
      returns (plan: Option<(Judgment, string)>)
    requires id != "" && FindJudgment(s.judgments, id) < 0
    ensures
      var after := ProposeStep(p, s, c, caller, id, now).0.judgments;
      after == s.judgments ||
      (plan.Some? && after == WithProposal(s.judgments, plan.value.0, plan.value.1, now) &&
       Admissible(s.judgments, plan.value.0, plan.value.1))
  {
    var scope, check := ProposalScope(s, c, caller), PredecessorCheck(p, s, c, caller);
    plan := None;
    if scope.Ok? && check.Ok? {
      var j := NewJudgment(scope.value.0, scope.value.1, c, caller, id, now);
      assert TupleOf(j) == scope.value.0;
      plan := Some((j, check.value));
    }
  }

  lemma ProposeKeepsJudgments(p: Primitives, s: State, c: ProposeCommand, caller: Source, id: string, now: string,
                              after: seq<Judgment>)
    requires JudgmentsOk(s.judgments) && id != "" && FindJudgment(s.judgments, id) < 0
    requires after == ProposeStep(p, s, c, caller, id, now).0.judgments
    ensures JudgmentsOk(after) && Advances(s.judgments, after)
  {
    var plan := ProposeShape(p, s, c, caller, id, now);
    if after != s.judgments {
      ProposalKeepsJudgments(s.judgments, plan.value.0, plan.value.1, now);
    }
  }

  lemma AdjudicateKeepsJudgments(p: Primitives, s: State, v: Verdict, c: AdjudicateCommand, who: Principal,
                                 policy: JudgmentPolicy, eventId: string, supersedeEventId: string, now: string)
    requires JudgmentsOk(s.judgments)
    ensures JudgmentsOk(AdjudicateStep(p, s, v, c, who, policy, eventId, supersedeEventId, now).0.judgments)
    ensures Advances(s.judgments, AdjudicateStep(p, s, v, c, who, policy, eventId, supersedeEventId, now).0.judgments)
  {
    hide JudgmentsOk, AdjudicateHash, LedgerKey, AdjudicatedPayload;
    var js := s.judgments;
    var after := AdjudicateStep(p, s, v, c, who, policy, eventId, supersedeEventId, now).0.judgments;
    if after != js {
      var (at, policyVersion, pred) := AdjudicationCheck(p, s, v, c, who, policy).value;
      var decided := Adjudicated(p, js[at], v, c, who, policyVersion, now);
      assert after == WithVerdict(js, at, decided, pred, now);
      VerdictKeepsJudgments(js, at, decided, pred, now);
    }
  }

  /** A confirmed predecessor gives way to the judgment that was just decided. */
  lemma GiveWayKeepsJudgments(js: seq<Judgment>, at: nat, pred: nat, now: string)
    requires JudgmentsOk(js) && at < |js| && pred < |js|
    requires js[pred].status == Confirmed && js[pred].id == js[at].predecessorId && at != pred
    ensures JudgmentsOk(js[pred := js[pred].(status := Replaced, supersedesId := js[at].id, updatedAt := now)])
  {
    var replaced := js[pred].(status := Replaced, supersedesId := js[at].id, updatedAt := now);
    assert PredecessorEarlier(js, at);
    FindJudgmentAt(js, pred);
    FindJudgmentAt(js, at);
    FindStable(js, js[pred := replaced], js[at].id);
    RewriteKeepsJudgments(js, pred, replaced);
  }

  lemma VerdictKeepsJudgments(js: seq<Judgment>, at: nat, decided: Judgment, pred: int, now: string)
    requires JudgmentsOk(js) && at < |js| && js[at].status == Proposed && SameSubject(js[at], decided)
    requires decided.status == Confirmed || decided.status == Declined
    requires decided.supersedesId == js[at].supersedesId
    requires -1 <= pred < |js|
    requires pred >= 0 ==> js[pred].status == Confirmed && js[pred].id == js[at].predecessorId
    ensures JudgmentsOk(WithVerdict(js, at, decided, pred, now))
    ensures Advances(js, WithVerdict(js, at, decided, pred, now))
  {
    assert RoutedOn(js, at);
    RewriteKeepsJudgments(js, at, decided);
    if pred >= 0 {
      GiveWayKeepsJudgments(js[at := decided], at, pred, now);
    }
  }

  lemma WithdrawKeepsJudgments(p: Primitives, s: State, judgmentId: string, requestId: string, caller: Source,
                               eventId: string, now: string)
    requires JudgmentsOk(s.judgments)
    ensures JudgmentsOk(WithdrawStep(p, s, judgmentId, requestId, caller, eventId, now).0.judgments)
    ensures Advances(s.judgments, WithdrawStep(p, s, judgmentId, requestId, caller, eventId, now).0.judgments)
  {
    var js := s.judgments;
    var at := FindJudgment(js, judgmentId);
    if at >= 0 && js[at].status == Proposed {
      assert RoutedOn(js, at);
      RewriteKeepsJudgments(js, at, js[at].(status := Withdrawn, decidedAt := now, updatedAt := now));
    }
  }

  // ------------------------------------------------------------- consequences

  /** Following successors from a judgment: it always ends, at one that was not replaced. */
  function Current(js: seq<Judgment>, i: nat): (at: nat)
    requires i < |js| && forall k | 0 <= k < |js| :: RoutedOn(js, k)
    ensures i <= at < |js| && js[at].status != Replaced
    decreases |js| - i
  {
    if js[i].status != Replaced then i
    else
      assert RoutedOn(js, i);
      Current(js, FindJudgment(js, js[i].supersedesId))
  }
}
