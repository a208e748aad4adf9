/** Revision chains: what every (topicKey, scope) chain of the store looks like. */
module RevisionChains {
  import opened Records
  import opened StoreModel

  /** The revisions stored under one chain key, in insertion order. */
  function ChainOf(p: Primitives, ms: seq<Memory>, key: string): (c: seq<Memory>)
    ensures |c| <= |ms|
  {
    if ms == [] then []
    else
      var earlier := ChainOf(p, ms[..|ms| - 1], key);
      if KeyOf(p, ms[|ms| - 1]) == key then earlier + [ms[|ms| - 1]] else earlier
  }

  /** A well-formed chain: numbered from 1, superseded rows route to the next one, and only the
      last revision can be active, pending or approved. */
  ghost predicate ChainOk(c: seq<Memory>) {
    && (forall k | 0 <= k < |c| :: c[k].revision == k + 1)
    && (forall k | 0 <= k < |c| :: c[k].status == Superseded <==> c[k].supersedesId != "")
    && (forall k | 0 <= k < |c| - 1 :: !CanVoid(c[k].status))
    && (forall k | 0 <= k < |c| && c[k].status == Superseded :: k + 1 < |c| && c[k].supersedesId == c[k + 1].id)
  }

  ghost predicate DistinctIds(ms: seq<Memory>) {
    && (forall i | 0 <= i < |ms| :: ms[i].id != "")
    && (forall i, j | 0 <= i < j < |ms| :: ms[i].id != ms[j].id)
  }

  ghost predicate RowsOk(p: Primitives, ms: seq<Memory>) {
    DistinctIds(ms) && forall key :: ChainOkAt(p, ms, key)
  }

  ghost predicate ChainOkAt(p: Primitives, ms: seq<Memory>, key: string) {
    ChainOk(ChainOf(p, ms, key))
  }

  predicate SameIdentity(a: Memory, b: Memory) {
    a.id == b.id && a.topicKey == b.topicKey && a.scope == b.scope && a.revision == b.revision &&
    a.fiscalEffect == b.fiscalEffect
  }

  /** The position of row `at` inside its chain. */
  function Rank(p: Primitives, ms: seq<Memory>, at: nat): (r: nat)
    requires at < |ms|
  {
    |ChainOf(p, ms[..at], KeyOf(p, ms[at]))|
  }

  lemma {:induction false} RankIndexes(p: Primitives, ms: seq<Memory>, at: nat)
    requires at < |ms|
    ensures Rank(p, ms, at) < |ChainOf(p, ms, KeyOf(p, ms[at]))|
    ensures ChainOf(p, ms, KeyOf(p, ms[at]))[Rank(p, ms, at)] == ms[at]
  {
    var before := ms[..|ms| - 1];
    if at == |ms| - 1 {
    } else {
      RankIndexes(p, before, at);
      assert before[..at] == ms[..at];
    }
  }

  lemma {:induction false} LatestIsLast(p: Primitives, ms: seq<Memory>, key: string)
    ensures LatestAt(p, ms, key) < 0 <==> ChainOf(p, ms, key) == []
    ensures LatestAt(p, ms, key) >= 0 ==> Rank(p, ms, LatestAt(p, ms, key)) == |ChainOf(p, ms, key)| - 1
  {
    if ms != [] {
      var before := ms[..|ms| - 1];
      LatestIsLast(p, before, key);
      if KeyOf(p, ms[|ms| - 1]) != key && LatestAt(p, before, key) >= 0 {
        assert before[..LatestAt(p, before, key)] == ms[..LatestAt(p, before, key)];
      }
    }
  }

  lemma {:induction false} ChainAfterUpdate(p: Primitives, ms: seq<Memory>, at: nat, m: Memory, key: string)
    requires at < |ms| && SameIdentity(ms[at], m)
    ensures Rank(p, ms, at) < |ChainOf(p, ms, KeyOf(p, m))|
    ensures ChainOf(p, ms[at := m], key) ==
            if key == KeyOf(p, m) then ChainOf(p, ms, key)[Rank(p, ms, at) := m] else ChainOf(p, ms, key)
  {
    RankIndexes(p, ms, at);
    var before, after := ms[..|ms| - 1], ms[at := m];
    if at == |ms| - 1 {
      assert after[..|ms| - 1] == before;
    } else {
      ChainAfterUpdate(p, before, at, m, key);
      assert after[..|ms| - 1] == before[at := m];
      assert before[..at] == ms[..at];
    }
  }

  lemma ChainAfterAppend(p: Primitives, ms: seq<Memory>, m: Memory, key: string)
    ensures ChainOf(p, ms + [m], key) == if KeyOf(p, m) == key then ChainOf(p, ms, key) + [m] else ChainOf(p, ms, key)
  {
    assert (ms + [m])[..|ms|] == ms;
  }

  lemma FindMemoryAt(ms: seq<Memory>, at: nat)
    requires at < |ms| && DistinctIds(ms)
    ensures FindMemory(ms, ms[at].id) == at
  {
  }

  // ------------------------------------------------------------- preservation

  /** Moving a current row, or updating one without touching its status, keeps its chain. */
  lemma ChainUpdateOk(c: seq<Memory>, k: nat, m: Memory)
    requires ChainOk(c) && k < |c| && SameIdentity(c[k], m) && m.supersedesId == c[k].supersedesId
    requires m.status == c[k].status || (CanVoid(c[k].status) && m.status != Superseded)
    ensures ChainOk(c[k := m])
  {
  }

  /** A revision numbered next extends a chain whose last row is no longer current. */
  lemma ChainExtendOk(c: seq<Memory>, m: Memory)
    requires ChainOk(c) && m.revision == |c| + 1 && m.status != Superseded && m.supersedesId == ""
    requires c != [] ==> !CanVoid(c[|c| - 1].status)
    ensures ChainOk(c + [m])
  {
  }

  /** A revision numbered next supersedes the current last row. */
  lemma ChainSupersedeOk(c: seq<Memory>, superseded: Memory, m: Memory)
    requires ChainOk(c) && c != [] && SameIdentity(c[|c| - 1], superseded)
    requires superseded.status == Superseded && superseded.supersedesId == m.id && m.id != ""
    requires m.revision == |c| + 1 && m.status != Superseded && m.supersedesId == "" && CanVoid(c[|c| - 1].status)
    ensures ChainOk(c[|c| - 1 := superseded] + [m])
  {
  }

  lemma UpdateKeepsChain(p: Primitives, ms: seq<Memory>, at: nat, m: Memory, key: string)
    requires ChainOkAt(p, ms, key) && ChainOkAt(p, ms, KeyOf(p, m))
    requires at < |ms| && SameIdentity(ms[at], m) && m.supersedesId == ms[at].supersedesId
    requires m.status == ms[at].status || (CanVoid(ms[at].status) && m.status != Superseded)
    ensures ChainOkAt(p, ms[at := m], key)
  {
    RankIndexes(p, ms, at);
    ChainAfterUpdate(p, ms, at, m, key);
    if key == KeyOf(p, m) {
      ChainUpdateOk(ChainOf(p, ms, key), Rank(p, ms, at), m);
    }
  }

  lemma UpdateKeepsRows(p: Primitives, ms: seq<Memory>, at: nat, m: Memory)
    requires RowsOk(p, ms) && at < |ms| && SameIdentity(ms[at], m) && m.supersedesId == ms[at].supersedesId
    requires m.status == ms[at].status || (CanVoid(ms[at].status) && m.status != Superseded)
    ensures RowsOk(p, ms[at := m])
  {
    var updated := ms[at := m];
    forall key ensures ChainOkAt(p, updated, key) {
      UpdateKeepsChain(p, ms, at, m, key);
    }
  }

  lemma SaveKeepsChain(p: Primitives, ms: seq<Memory>, m: Memory, key: string)
    requires ChainOkAt(p, ms, key) && ChainOkAt(p, ms, KeyOf(p, m)) && m.id != ""
    requires m.revision == (var at := LatestAt(p, ms, KeyOf(p, m)); if at < 0 then 1 else ms[at].revision + 1)
    requires m.status != Superseded && m.supersedesId == ""
    ensures ChainOkAt(p, Saved(p, ms, m), key)
  {
    var at := LatestAt(p, ms, KeyOf(p, m));
    LatestIsLast(p, ms, KeyOf(p, m));
    if at >= 0 {
      RankIndexes(p, ms, at);
    }
    if at >= 0 && CanVoid(ms[at].status) {
      var superseded := Replacing(ms[at], m);
      ChainAfterUpdate(p, ms, at, superseded, key);
      ChainAfterAppend(p, ms[at := superseded], m, key);
      if key == KeyOf(p, m) {
        ChainSupersedeOk(ChainOf(p, ms, key), superseded, m);
      }
    } else {
      ChainAfterAppend(p, ms, m, key);
      if key == KeyOf(p, m) {
        ChainExtendOk(ChainOf(p, ms, key), m);
      }
    }
  }

  lemma SaveKeepsRows(p: Primitives, ms: seq<Memory>, m: Memory)
    requires RowsOk(p, ms) && m.id != "" && FindMemory(ms, m.id) < 0
    requires m.revision == (var at := LatestAt(p, ms, KeyOf(p, m)); if at < 0 then 1 else ms[at].revision + 1)
    requires m.status != Superseded && m.supersedesId == ""
    ensures RowsOk(p, Saved(p, ms, m))
  {
    var saved := Saved(p, ms, m);
    forall key ensures ChainOkAt(p, saved, key) {
      SaveKeepsChain(p, ms, m, key);
    }
  }
}
