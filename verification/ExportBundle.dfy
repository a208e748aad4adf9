/** The audit bundle as the exporter holds it: ten arrays that canonicalization sorts in place. */
module ExportBundle {
  import opened Text
  import opened Records
  import opened ExportOrdinals
  import opened Sorting
  import opened Lists
  import opened ExportReceipts
  import opened ExportRows

  datatype Counts = Counts(
    objects: nat, states: nat, policies: nat, holds: nat, requests: nat, approvals: nat, executions: nat,
    events: nat, receipts: nat, keys: nat)

  datatype Manifest = Manifest(
    version: string, exportId: string, companyScope: bool, scope: RowScope, criteriaCompany: bool, criteria: RowScope,
    generatedAt: string, counts: Counts, contentManifestHash: string, bundleHash: string)

  /** The part of a manifest that its own hash covers: neither that hash nor the export id. */
  datatype ManifestCore = ManifestCore(
    version: string, companyScope: bool, scope: RowScope, criteriaCompany: bool, criteria: RowScope,
    generatedAt: string, counts: Counts, contentManifestHash: string)

  function CoreOf(m: Manifest): ManifestCore {
    ManifestCore(m.version, m.companyScope, m.scope, m.criteriaCompany, m.criteria, m.generatedAt, m.counts, m.contentManifestHash)
  }

  const EXPORT_MODEL_VERSION := "evidence-export/v0.8.0"

  /** Digests of the canonical JSON forms, and the field validators of other files. */
  datatype Formats = Formats(
    content: Rows -> string, envelope: ManifestCore -> string, validRuc: string -> bool, validPeriod: string -> bool,
    validObject: ObjectRow -> bool, hash64: string -> bool)

  function CountsOf(r: Rows): Counts {
    Counts(|r.objects|, |r.states|, |r.policies|, |r.holds|, |r.requests|, |r.approvals|, |r.executions|,
           |r.events|, |r.receipts|, |r.keys|)
  }

  // ------------------------------------------------------- establishing ordinals

  /** The receipts at the indices of one subject take the ordinals their group resolves to. */
  method SettleGroup(a: array<ExportReceipt>, idx: seq<nat>, ghost rs: seq<ExportReceipt>, ghost subject: string)
    requires |rs| == a.Length && idx == Indices(rs, subject)
    requires forall i | 0 <= i < a.Length && SubjectOf(rs[i]) == subject :: a[i] == rs[i]
    modifies a
    ensures forall i | 0 <= i < a.Length ::
      a[i] == if SubjectOf(rs[i]) == subject then Settled(rs, rs[i]) else old(a[i])
  {
    IndicesAreExact(rs, subject);
    var group, provided := [], [];
    for k := 0 to |idx|
      invariant group == GroupOf(rs, subject)[..k] && provided == Provided(GroupOf(rs, subject))[..k]
      invariant forall i | 0 <= i < a.Length :: a[i] == old(a[i])
    {
      assert SubjectOf(rs[idx[k]]) == subject;
      group := group + [a[idx[k]]];
      provided := provided + [a[idx[k]].chainOrdinal];
    }
    assert GroupOf(rs, subject)[..|idx|] == GroupOf(rs, subject);
    assert Provided(GroupOf(rs, subject))[..|idx|] == Provided(GroupOf(rs, subject));
    var valid := ValidChainOrdinals(provided);
    if valid {
      return;
    }
    var derived := DeriveReceiptChainOrdinals(group);
    var ordinals := if derived.Some? then derived.value else seq(|idx|, _ => 0);
    label before:
    WriteOrdinals(a, idx, ordinals);
    forall i | 0 <= i < a.Length ensures a[i] == if SubjectOf(rs[i]) == subject then Settled(rs, rs[i]) else old@before(a[i]) {
      if SubjectOf(rs[i]) == subject {
        assert i in idx;
        var k :| 0 <= k < |idx| && idx[k] == i;
        OrdinalWritten(rs, subject, k, derived);
      }
    }
  }

  /** Writes ordinals at distinct positions. */
  method WriteOrdinals(a: array<ExportReceipt>, idx: seq<nat>, ordinals: seq<int>)
    requires |ordinals| == |idx| && Distinct(idx) && forall k | 0 <= k < |idx| :: idx[k] < a.Length
    modifies a
    ensures forall k | 0 <= k < |idx| :: a[idx[k]] == old(a[idx[k]]).(chainOrdinal := ordinals[k])
    ensures forall i | 0 <= i < a.Length && i !in idx :: a[i] == old(a[i])
  {
    for k := 0 to |idx|
      invariant forall l | 0 <= l < k :: a[idx[l]] == old(a[idx[l]]).(chainOrdinal := ordinals[l])
      invariant forall l | k <= l < |idx| :: a[idx[l]] == old(a[idx[l]])
      invariant forall i | 0 <= i < a.Length && i !in idx :: a[i] == old(a[i])
    {
      a[idx[k]] := a[idx[k]].(chainOrdinal := ordinals[k]);
    }
  }

  lemma OrdinalWritten(rs: seq<ExportReceipt>, subject: string, k: nat, derived: Option<seq<int>>)
    requires k < |Indices(rs, subject)| && SubjectOf(rs[Indices(rs, subject)[k]]) == subject
    requires derived == DerivedOrdinals(GroupOf(rs, subject)) && !Complete(Provided(GroupOf(rs, subject)))
    ensures derived.Some? ==> |derived.value| == |Indices(rs, subject)|
    ensures
      var x := rs[Indices(rs, subject)[k]];
      Settled(rs, x) == x.(chainOrdinal := if derived.Some? then derived.value[k] else 0)
  {
    var g := GroupOf(rs, subject);
    assert g[k] in g;
  }

  /** `establishCanonicalReceiptOrdinals`: group by group, in any order of the groups. */
  method EstablishCanonicalReceiptOrdinals(a: array<ExportReceipt>)
    modifies a
    ensures a[..] == Established(old(a[..]))
  {
    ghost var rs := a[..];
    var groups: map<string, seq<nat>> := map[];
    for i := 0 to a.Length
      invariant a[..] == rs
      invariant forall s | s in groups :: groups[s] == Indices(rs[..i], s)
      invariant forall s | s !in groups :: Indices(rs[..i], s) == []
    {
      var s := a[i].receipt.subjectId;
      forall t ensures Indices(rs[..i + 1], t) ==
                       if SubjectOf(rs[i]) == t then Indices(rs[..i], t) + [i] else Indices(rs[..i], t)
      {
        assert rs[..i + 1] == rs[..i] + [rs[i]];
        IndicesGrow(rs[..i], rs[i], t);
      }
      groups := groups[s := (if s in groups then groups[s] else []) + [i]];
    }
    assert rs[..a.Length] == rs;
    EverySubjectGrouped(rs, groups);
    var todo := groups.Keys;
    while todo != {}
      invariant todo <= groups.Keys
      invariant forall i | 0 <= i < a.Length :: a[i] == if SubjectOf(rs[i]) in todo then rs[i] else Settled(rs, rs[i])
      decreases todo
    {
      var s :| s in todo;
      SettleGroup(a, groups[s], rs, s);
      todo := todo - {s};
    }
    assert a[..] == Established(rs);
  }

  lemma EverySubjectGrouped(rs: seq<ExportReceipt>, groups: map<string, seq<nat>>)
    requires forall s | s !in groups :: Indices(rs, s) == []
    ensures forall i | 0 <= i < |rs| :: SubjectOf(rs[i]) in groups
  {
    forall i | 0 <= i < |rs| ensures SubjectOf(rs[i]) in groups {
      IndicesAreExact(rs, SubjectOf(rs[i]));
      assert i in Indices(rs, SubjectOf(rs[i]));
    }
  }

  // -------------------------------------------------------------------- bundle

  method ToArray<T>(s: seq<T>) returns (a: array<T>)
    ensures fresh(a) && a[..] == s
  {
    a := new T[|s|](i requires 0 <= i < |s| => s[i]);
  }

  class EvidenceExportBundle {
    const manifest: Manifest
    const objects: array<ObjectRow>
    const states: array<StateRow>
    const policies: array<PolicyRow>
    const holds: array<HoldRow>
    const requests: array<RequestRow>
    const approvals: array<ApprovalRow>
    const executions: array<ExecutionRow>
    const events: array<EventRow>
    const receipts: array<ExportReceipt>
    const keys: array<KeyRow>

    ghost const Arrays: set<object> := {objects, states, policies, holds, requests, approvals, executions, events, receipts, keys}

    ghost function Contents(): Rows
      reads Arrays
    {
      Rows(objects[..], states[..], policies[..], holds[..], requests[..], approvals[..], executions[..], events[..],
           receipts[..], keys[..])
    }

    constructor (m: Manifest, r: Rows)
      ensures manifest == m && Contents() == r && fresh(Arrays)
    {
      manifest := m;
      var objectRows := ToArray(r.objects);
      var stateRows := ToArray(r.states);
      var policyRows := ToArray(r.policies);
      var holdRows := ToArray(r.holds);
      var requestRows := ToArray(r.requests);
      var approvalRows := ToArray(r.approvals);
      var executionRows := ToArray(r.executions);
      var eventRows := ToArray(r.events);
      var receiptRows := ToArray(r.receipts);
      var keyRows := ToArray(r.keys);
      objects := objectRows;
      states := stateRows;
      policies := policyRows;
      holds := holdRows;
      requests := requestRows;
      approvals := approvalRows;
      executions := executionRows;
      events := eventRows;
      receipts := receiptRows;
      keys := keyRows;
    }

    /** `CanonicalizeEvidenceExportBundle`: sorts the arrays in place, the receipts after their ordinals. */
    method Canonicalize()
      modifies Arrays
      ensures CanonicalRows(old(Contents()), Contents())
    {
      hide SortedPermutation, Established;
      SortObjectsAndHolds();
      SortPurges();
      SortBy(events, EventKey);
      SortBy(keys, KeyKey);
      EstablishCanonicalReceiptOrdinals(receipts);
      SortBy(receipts, ReceiptKey);
    }

    method SortObjectsAndHolds()
      modifies objects, states, policies, holds
      ensures SortedPermutation(old(objects[..]), objects[..], ObjectKey)
      ensures SortedPermutation(old(states[..]), states[..], StateKey)
      ensures SortedPermutation(old(policies[..]), policies[..], PolicyKey)
      ensures SortedPermutation(old(holds[..]), holds[..], HoldKey)
    {
      hide SortedPermutation;
      SortBy(objects, ObjectKey);
      SortBy(states, StateKey);
      SortBy(policies, PolicyKey);
      SortBy(holds, HoldKey);
    }

    method SortPurges()
      modifies requests, approvals, executions
      ensures SortedPermutation(old(requests[..]), requests[..], RequestKey)
      ensures SortedPermutation(old(approvals[..]), approvals[..], ApprovalKey)
      ensures SortedPermutation(old(executions[..]), executions[..], ExecutionKey)
    {
      hide SortedPermutation;
      SortBy(requests, RequestKey);
      SortBy(approvals, ApprovalKey);
      SortBy(executions, ExecutionKey);
    }
  }
}
