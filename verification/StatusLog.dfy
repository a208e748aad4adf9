/** The transition log: replaying it gives each row's status, and the gate left its mark on it. */
module StatusLog {
  import opened Records
  import opened StoreModel
  import opened RevisionChains
  import Text

  // -------------------------------------------------------- status as of an instant

  predicate InEffect(t: Transition, instant: string) {
    t.timestamp != "" && Text.LessEq(t.timestamp, instant)
  }

  /** The target of the last entry in effect at the instant; the initial status when there is none. */
  ghost predicate HoldsAsOf(initial: Status, ts: seq<Transition>, instant: string, status: Status) {
    || (status == initial && forall k | 0 <= k < |ts| :: !InEffect(ts[k], instant))
    || exists k | 0 <= k < |ts| ::
         InEffect(ts[k], instant) && ts[k].to == status && forall l | k < l < |ts| :: !InEffect(ts[l], instant)
  }

  method StatusAsOf(initial: Status, transitions: seq<Transition>, instant: string) returns (status: Status)
    ensures HoldsAsOf(initial, transitions, instant, status)
  {
    status := initial;
    for i := 0 to |transitions|
      invariant HoldsAsOf(initial, transitions[..i], instant, status)
    {
      ghost var prefix := transitions[..i + 1];
      assert prefix[..i] == transitions[..i] && prefix[i] == transitions[i];
      if transitions[i].timestamp != "" && Text.LessEq(transitions[i].timestamp, instant) {
        status := transitions[i].to;
        assert InEffect(prefix[i], instant);
      } else {
        Unaffected(initial, transitions[..i], transitions[i], instant, status);
        assert prefix == transitions[..i] + [transitions[i]];
      }
    }
    assert transitions[..|transitions|] == transitions;
  }

  lemma Unaffected(initial: Status, ts: seq<Transition>, t: Transition, instant: string, status: Status)
    requires HoldsAsOf(initial, ts, instant, status) && !InEffect(t, instant)
    ensures HoldsAsOf(initial, ts + [t], instant, status)
  {
    var longer := ts + [t];
    if k :| 0 <= k < |ts| && InEffect(ts[k], instant) && ts[k].to == status && forall l | k < l < |ts| :: !InEffect(ts[l], instant) {
      assert longer[k] == ts[k];
      forall l | k < l < |longer| ensures !InEffect(longer[l], instant) {
        if l < |ts| {
          assert longer[l] == ts[l];
        }
      }
    }
  }

  // ------------------------------------------------------------------- replay

  /** The target of the subject's last entry, or the initial status. */
  function Replay(ts: seq<Transition>, id: string, initial: Status): Status {
    if ts == [] then initial
    else if ts[|ts| - 1].memoryId == id then ts[|ts| - 1].to
    else Replay(ts[..|ts| - 1], id, initial)
  }

  /** The entries of one subject, in log order. */
  function EntriesOf(ts: seq<Transition>, id: string): seq<Transition> {
    if ts == [] then []
    else
      var earlier := EntriesOf(ts[..|ts| - 1], id);
      if ts[|ts| - 1].memoryId == id then earlier + [ts[|ts| - 1]] else earlier
  }

  /** Past all of a subject's entries, the status as of an instant is what the replay gives. */
  lemma {:induction false} ReplayIsStatusAsOf(ts: seq<Transition>, id: string, initial: Status, instant: string, status: Status)
    requires forall k | 0 <= k < |ts| && ts[k].memoryId == id :: InEffect(ts[k], instant)
    requires HoldsAsOf(initial, EntriesOf(ts, id), instant, status)
    ensures status == Replay(ts, id, initial)
  {
    if ts != [] {
      var entries := EntriesOf(ts, id);
      if ts[|ts| - 1].memoryId == id {
        assert entries[|entries| - 1] == ts[|ts| - 1];
      } else {
        ReplayIsStatusAsOf(ts[..|ts| - 1], id, initial, instant, status);
      }
    }
  }

  // ---------------------------------------------------------------- invariant

  /** Replaying the log gives a row its status; a superseded row was current when it gave way. */
  predicate StatusReplays(m: Memory, ts: seq<Transition>) {
    var replayed := Replay(ts, m.id, InitialStatus(m.fiscalEffect));
    if m.status == Superseded then CanVoid(replayed) else replayed == m.status
  }

  /** Decisions were made by humans, and no agent voided anything. */
  predicate Gated(t: Transition) {
    && (t.to == Approved || t.to == Rejected || t.to == Returned ==> t.from == PendingReview && t.actorKind == Human)
    && (t.to == Voided ==> CanVoid(t.from) && t.actorKind != Agent)
    && (t.to == Approved || t.to == Rejected || t.to == Returned || t.to == Voided)
  }

  /** Entry k is about a stored row and starts where the log stood just before. */
  predicate EntryOk(ms: seq<Memory>, ts: seq<Transition>, k: nat)
    requires k < |ts|
  {
    var at := FindMemory(ms, ts[k].memoryId);
    at >= 0 && ts[k].from == Replay(ts[..k], ts[k].memoryId, InitialStatus(ms[at].fiscalEffect)) && Gated(ts[k])
  }

  ghost predicate LogOk(ms: seq<Memory>, ts: seq<Transition>) {
    && (forall i | 0 <= i < |ms| :: StatusReplays(ms[i], ts))
    && (forall k | 0 <= k < |ts| :: EntryOk(ms, ts, k))
  }

  lemma {:induction false} FindAfterUpdate(ms: seq<Memory>, at: nat, m: Memory, id: string)
    requires at < |ms| && m.id == ms[at].id
    ensures FindMemory(ms[at := m], id) == FindMemory(ms, id)
  {
    var before, after := ms[..|ms| - 1], ms[at := m];
    if at == |ms| - 1 {
      assert after[..|ms| - 1] == before;
    } else {
      FindAfterUpdate(before, at, m, id);
      assert after[..|ms| - 1] == before[at := m];
    }
  }

  lemma FindAfterAppend(ms: seq<Memory>, m: Memory, id: string)
    requires id != m.id
    ensures FindMemory(ms + [m], id) == FindMemory(ms, id)
  {
    assert (ms + [m])[..|ms|] == ms;
  }

  /** No entry of a log over `ms` is about a row that is not stored. */
  lemma {:induction false} UnknownReplays(ms: seq<Memory>, ts: seq<Transition>, id: string, initial: Status)
    requires forall k | 0 <= k < |ts| :: FindMemory(ms, ts[k].memoryId) >= 0
    requires FindMemory(ms, id) < 0
    ensures Replay(ts, id, initial) == initial
  {
    if ts != [] {
      assert ts[|ts| - 1].memoryId != id;
      UnknownReplays(ms, ts[..|ts| - 1], id, initial);
    }
  }

  lemma ReplayAppend(ts: seq<Transition>, t: Transition, id: string, initial: Status)
    ensures Replay(ts + [t], id, initial) == if t.memoryId == id then t.to else Replay(ts, id, initial)
  {
    assert (ts + [t])[..|ts|] == ts;
  }

  /** A logged move of a row keeps the log in step. */
  lemma MoveKeepsLog(ms: seq<Memory>, ts: seq<Transition>, at: nat, m: Memory, t: Transition)
    requires LogOk(ms, ts) && DistinctIds(ms) && at < |ms| && SameIdentity(ms[at], m)
    requires ms[at].status != Superseded
    requires t.memoryId == m.id && t.from == ms[at].status && t.to == m.status && Gated(t)
    ensures LogOk(ms[at := m], ts + [t])
  {
    var moved, log := ms[at := m], ts + [t];
    forall i | 0 <= i < |moved| ensures StatusReplays(moved[i], log) {
      assert StatusReplays(ms[i], ts);
      ReplayAppend(ts, t, ms[i].id, InitialStatus(ms[i].fiscalEffect));
    }
    forall k | 0 <= k < |log| ensures EntryOk(moved, log, k) {
      FindAfterUpdate(ms, at, m, log[k].memoryId);
      if k < |ts| {
        assert EntryOk(ms, ts, k);
        assert log[..k] == ts[..k];
      } else {
        assert log[..k] == ts;
        FindMemoryAt(ms, at);
        assert StatusReplays(ms[at], ts);
      }
    }
  }

  /** An update that is not a status move, or the supersession of a current row, keeps the log in step. */
  lemma UpdateKeepsLog(ms: seq<Memory>, ts: seq<Transition>, at: nat, m: Memory)
    requires LogOk(ms, ts) && at < |ms| && SameIdentity(ms[at], m)
    requires m.status == ms[at].status || (CanVoid(ms[at].status) && m.status == Superseded)
    ensures LogOk(ms[at := m], ts)
  {
    var updated := ms[at := m];
    forall i | 0 <= i < |updated| ensures StatusReplays(updated[i], ts) {
      assert StatusReplays(ms[i], ts);
    }
    forall k | 0 <= k < |ts| ensures EntryOk(updated, ts, k) {
      assert EntryOk(ms, ts, k);
      FindAfterUpdate(ms, at, m, ts[k].memoryId);
    }
  }

  lemma AppendKeepsLog(ms: seq<Memory>, ts: seq<Transition>, m: Memory)
    requires LogOk(ms, ts) && FindMemory(ms, m.id) < 0 && m.status == InitialStatus(m.fiscalEffect)
    ensures LogOk(ms + [m], ts)
  {
    var grown := ms + [m];
    forall k | 0 <= k < |ts| ensures EntryOk(grown, ts, k) {
      assert EntryOk(ms, ts, k);
      FindAfterAppend(ms, m, ts[k].memoryId);
    }
    forall i | 0 <= i < |grown| ensures StatusReplays(grown[i], ts) {
      if i < |ms| {
        assert StatusReplays(ms[i], ts);
      } else {
        forall k | 0 <= k < |ts| ensures FindMemory(ms, ts[k].memoryId) >= 0 {
          assert EntryOk(ms, ts, k);
        }
        UnknownReplays(ms, ts, m.id, InitialStatus(m.fiscalEffect));
      }
    }
  }

  /** Entry k is the last one of a row, and a human's approval. */
  predicate LastByHuman(ts: seq<Transition>, id: string, k: nat)
    requires k < |ts|
  {
    ts[k].memoryId == id && ts[k].to == Approved && ts[k].actorKind == Human &&
    forall l | k < l < |ts| :: ts[l].memoryId != id
  }

  /** An approved row has a human's approval as its last entry. */
  lemma {:induction false} ApprovedByHuman(ts: seq<Transition>, id: string, initial: Status) returns (k: nat)
    requires initial != Approved && Replay(ts, id, initial) == Approved
    requires forall k | 0 <= k < |ts| :: Gated(ts[k])
    ensures k < |ts| && LastByHuman(ts, id, k)
  {
    if ts[|ts| - 1].memoryId != id {
      var before := ts[..|ts| - 1];
      k := ApprovedByHuman(before, id, initial);
      assert ts[k] == before[k];
      assert forall l | k < l < |ts| - 1 :: before[l] == ts[l];
    } else {
      k := |ts| - 1;
      assert Gated(ts[k]);
    }
  }
}
