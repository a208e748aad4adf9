/** The authenticated decision events and the ledgers that make them idempotent. */
module DecisionLedger {
  import opened Text
  import opened Records
  import opened StoreModel
  import opened RevisionChains
  import opened StatusLog

  // ------------------------------------------------------- one decision per row

  /** The row has left pending review; it never returns there. */
  predicate Settled(ms: seq<Memory>, id: string) {
    var at := FindMemory(ms, id);
    at >= 0 && ms[at].status != PendingReview
  }

  /** Every decided row has left pending review, and no row was decided twice. */
  ghost predicate DecisionsOk(ms: seq<Memory>, approvals: seq<DecisionEvent>, decisions: seq<DecisionEvent>) {
    && (forall k | 0 <= k < |approvals| :: Settled(ms, approvals[k].memoryId))
    && (forall k | 0 <= k < |decisions| :: Settled(ms, decisions[k].memoryId))
    && (forall k, l | 0 <= k < l < |approvals| :: approvals[k].memoryId != approvals[l].memoryId)
    && (forall k, l | 0 <= k < l < |decisions| :: decisions[k].memoryId != decisions[l].memoryId)
    && (forall k, l | 0 <= k < |approvals| && 0 <= l < |decisions| :: approvals[k].memoryId != decisions[l].memoryId)
  }

  lemma SettledAfterUpdate(ms: seq<Memory>, at: nat, m: Memory, id: string)
    requires at < |ms| && m.id == ms[at].id && Settled(ms, id)
    requires m.status == PendingReview ==> ms[at].status == PendingReview
    ensures Settled(ms[at := m], id)
  {
    FindAfterUpdate(ms, at, m, id);
  }

  lemma UpdateKeepsDecisions(ms: seq<Memory>, approvals: seq<DecisionEvent>, decisions: seq<DecisionEvent>, at: nat, m: Memory)
    requires DecisionsOk(ms, approvals, decisions) && at < |ms| && m.id == ms[at].id
    requires m.status == PendingReview ==> ms[at].status == PendingReview
    ensures DecisionsOk(ms[at := m], approvals, decisions)
  {
    forall k | 0 <= k < |approvals| ensures Settled(ms[at := m], approvals[k].memoryId) {
      SettledAfterUpdate(ms, at, m, approvals[k].memoryId);
    }
    forall k | 0 <= k < |decisions| ensures Settled(ms[at := m], decisions[k].memoryId) {
      SettledAfterUpdate(ms, at, m, decisions[k].memoryId);
    }
  }

  lemma AppendKeepsDecisions(ms: seq<Memory>, approvals: seq<DecisionEvent>, decisions: seq<DecisionEvent>, m: Memory)
    requires DecisionsOk(ms, approvals, decisions) && FindMemory(ms, m.id) < 0
    ensures DecisionsOk(ms + [m], approvals, decisions)
  {
    forall k | 0 <= k < |approvals| ensures Settled(ms + [m], approvals[k].memoryId) {
      assert Settled(ms, approvals[k].memoryId);
      FindAfterAppend(ms, m, approvals[k].memoryId);
    }
    forall k | 0 <= k < |decisions| ensures Settled(ms + [m], decisions[k].memoryId) {
      assert Settled(ms, decisions[k].memoryId);
      FindAfterAppend(ms, m, decisions[k].memoryId);
    }
  }

  /** A pending row has not been decided yet. */
  lemma PendingIsUndecided(ms: seq<Memory>, events: seq<DecisionEvent>, at: nat)
    requires DistinctIds(ms) && at < |ms| && ms[at].status == PendingReview
    requires forall k | 0 <= k < |events| :: Settled(ms, events[k].memoryId)
    ensures forall k | 0 <= k < |events| :: events[k].memoryId != ms[at].id
  {
    FindMemoryAt(ms, at);
    forall k | 0 <= k < |events| ensures events[k].memoryId != ms[at].id {
      assert Settled(ms, events[k].memoryId);
    }
  }

  /** A decision settles a pending row and records one event, on either side. */
  lemma DecideKeepsDecisions(ms: seq<Memory>, approvals: seq<DecisionEvent>, decisions: seq<DecisionEvent>,
                             at: nat, m: Memory, e: DecisionEvent)
    requires DecisionsOk(ms, approvals, decisions) && DistinctIds(ms) && at < |ms| && m.id == ms[at].id
    requires ms[at].status == PendingReview && m.status != PendingReview && e.memoryId == m.id
    ensures DecisionsOk(ms[at := m], approvals + [e], decisions)
    ensures DecisionsOk(ms[at := m], approvals, decisions + [e])
  {
    UpdateKeepsDecisions(ms, approvals, decisions, at, m);
    PendingIsUndecided(ms, approvals, at);
    PendingIsUndecided(ms, decisions, at);
    FindAfterUpdate(ms, at, m, m.id);
    FindMemoryAt(ms, at);
    assert Settled(ms[at := m], e.memoryId);
  }

  // ------------------------------------------------------------------- ledgers

  function EventKey(e: DecisionEvent): string {
    LedgerKey(e.tenantId, e.requestId)
  }

  /** Event k is the one that the reservation stands for. */
  predicate StandsFor(e: DecisionEvent, r: Reservation) {
    r.result.Some? && r.result.value.eventId == e.id && r.result.value.memoryId == e.memoryId &&
    r.result.value.currentStatus == e.toStatus && !r.result.value.idempotentReplay
  }

  ghost predicate Recorded(events: seq<DecisionEvent>, key: string, r: Reservation) {
    exists k | 0 <= k < |events| :: EventKey(events[k]) == key && StandsFor(events[k], r)
  }

  /** Every reservation is completed and stands for exactly one event; every event has its reservation. */
  ghost predicate LedgerOk(events: seq<DecisionEvent>, ledger: map<string, Reservation>) {
    && (forall key | key in ledger :: Recorded(events, key, ledger[key]))
    && (forall k | 0 <= k < |events| :: EventKey(events[k]) in ledger)
    && (forall k, l | 0 <= k < l < |events| :: EventKey(events[k]) != EventKey(events[l]))
  }

  lemma RecordKeepsLedger(events: seq<DecisionEvent>, ledger: map<string, Reservation>, e: DecisionEvent, r: Reservation)
    requires LedgerOk(events, ledger) && EventKey(e) !in ledger && StandsFor(e, r)
    ensures LedgerOk(events + [e], ledger[EventKey(e) := r])
  {
    var longer, grown := events + [e], ledger[EventKey(e) := r];
    forall key | key in grown ensures Recorded(longer, key, grown[key]) {
      if key == EventKey(e) {
        assert longer[|events|] == e;
      } else {
        assert Recorded(events, key, ledger[key]);
        var k :| 0 <= k < |events| && EventKey(events[k]) == key && StandsFor(events[k], ledger[key]);
        assert longer[k] == events[k];
      }
    }
    forall k | 0 <= k < |longer| ensures EventKey(longer[k]) in grown {
    }
  }
}
