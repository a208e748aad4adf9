/** The reconstructibility metric: every eligible decision is counted once, in the numerator or under exactly one
    reason, whatever the order of the heads. */
module Reconstructibility {
  import opened Text
  import opened Records
  import opened Verification
  import opened Sorting
  import opened Lists
  import opened StableSort

  datatype Reason = NotApproved | ReceiptFailed | MissingEvidence | EvidenceMissingObject | RuleUnresolved | RuleVersionFailed

  type Report = seq<Layer>

  datatype Aggregate = Aggregate(denominator: nat, numerator: nat, reasons: map<Reason, seq<string>>)

  // ----------------------------------------------------------- classification

  predicate IsMaterialDecision(m: Memory, scope: Scope, isLatest: bool) {
    isLatest && m.scope == scope && m.status == Approved &&
    m.fiscalEffect in {JournalEntry, Adjustment, Reclassification, Declaration, Closing, SunatFiling} &&
    (m.materialityLevel == Material || m.materialityLevel == Critical)
  }

  predicate OfReceipts(name: LayerName) {
    name in RECEIPT_LAYERS || name == PrincipalProvenance
  }

  /** Some receipt layer, or the provenance of the approval, failed. */
  predicate ReceiptChainFailed(report: Report) {
    exists i :: 0 <= i < |report| && OfReceipts(report[i].name) && report[i].status == Failed
  }

  /** The first layer of this name failed. */
  predicate LayerFailed(report: Report, name: LayerName) {
    report != [] && if report[0].name == name then report[0].status == Failed else LayerFailed(report[1..], name)
  }

  /** Why a decision cannot be reconstructed: the first failure in the order of the vocabulary. None: it can be. */
  function Classify(m: Memory, report: Report): Option<Reason> {
    if m.status != Approved then Some(NotApproved)
    else if ReceiptChainFailed(report) then Some(ReceiptFailed)
    else if LayerFailed(report, EvidenceAvailability) then Some(MissingEvidence)
    else if LayerFailed(report, ObjectAvailability) then Some(EvidenceMissingObject)
    else if LayerFailed(report, RuleAvailability) then Some(RuleUnresolved)
    else if LayerFailed(report, RuleVersionVigencia) then Some(RuleVersionFailed)
    else None
  }

  method FindFailedReceiptLayer(report: Report) returns (failed: bool)
    ensures failed == ReceiptChainFailed(report)
  {
    for i := 0 to |report|
      invariant forall k | 0 <= k < i :: !(OfReceipts(report[k].name) && report[k].status == Failed)
    {
      if OfReceipts(report[i].name) && report[i].status == Failed {
        return true;
      }
    }
    failed := false;
  }

  method ReportLayerFailed(report: Report, name: LayerName) returns (failed: bool)
    ensures failed == LayerFailed(report, name)
  {
    for i := 0 to |report|
      invariant LayerFailed(report, name) == LayerFailed(report[i..], name)
    {
      if report[i].name == name {
        return report[i].status == Failed;
      }
      assert report[i..][1..] == report[i + 1..];
    }
    failed := false;
  }

  method ClassifyReconstructibility(m: Memory, report: Report) returns (reason: Option<Reason>)
    ensures reason == Classify(m, report)
  {
    if m.status != Approved {
      return Some(NotApproved);
    }
    var failed := FindFailedReceiptLayer(report);
    if failed {
      return Some(ReceiptFailed);
    }
    failed := ReportLayerFailed(report, EvidenceAvailability);
    if failed {
      return Some(MissingEvidence);
    }
    failed := ReportLayerFailed(report, ObjectAvailability);
    if failed {
      return Some(EvidenceMissingObject);
    }
    failed := ReportLayerFailed(report, RuleAvailability);
    if failed {
      return Some(RuleUnresolved);
    }
    failed := ReportLayerFailed(report, RuleVersionVigencia);
    reason := if failed then Some(RuleVersionFailed) else None;
  }

  // -------------------------------------------------------------- aggregation

  /** What becomes of an eligible head: a missing report fails closed. */
  function Verdict(reports: map<string, Report>, m: Memory): Option<Reason> {
    if m.id !in reports then Some(ReceiptFailed) else Classify(m, reports[m.id])
  }

  function Eligible(scope: Scope): Memory -> bool {
    (m: Memory) => IsMaterialDecision(m, scope, true)
  }

  function Reconstructible(reports: map<string, Report>): Memory -> bool {
    (m: Memory) => Verdict(reports, m).None?
  }

  function FailedFor(reports: map<string, Report>, reason: Reason): Memory -> bool {
    (m: Memory) => Verdict(reports, m) == Some(reason)
  }

  function IdOf(): Memory -> string {
    (m: Memory) => m.id
  }

  function ById(): Memory -> Key {
    (m: Memory) => [S(m.id)]
  }

  function TextKey(): string -> Key {
    (s: string) => [S(s)]
  }

  /** The ids listed under a reason; no entry and an empty list are the same. */
  function Listed(a: Aggregate, reason: Reason): seq<string> {
    if reason in a.reasons then a.reasons[reason] else []
  }

  function EligibleHeads(heads: seq<Memory>, scope: Scope): seq<Memory> {
    Filter(StableSorted(heads, ById()), Eligible(scope))
  }

  /** What the loop has counted after a prefix of the sorted heads. */
  ghost predicate Counted(eligible: seq<Memory>, reports: map<string, Report>, a: Aggregate) {
    && a.denominator == |eligible| && a.numerator == |Filter(eligible, Reconstructible(reports))|
    && (forall r :: Listed(a, r) == Mapped(Filter(eligible, FailedFor(reports, r)), IdOf()))
    && (forall r | r in a.reasons :: a.reasons[r] != [])
  }

  method AggregateReconstructibility(heads: seq<Memory>, reports: map<string, Report>, scope: Scope) returns (a: Aggregate)
    ensures Counted(EligibleHeads(heads, scope), reports, a)
  {
    hide Counted, StableSorted, Filter;
    var ordered := StableSorted(heads, ById());
    a := Aggregate(0, 0, map[]);
    NothingCounted(reports, Eligible(scope));
    for i := 0 to |ordered|
      invariant Counted(Filter(ordered[..i], Eligible(scope)), reports, a)
    {
      var head := ordered[i];
      ghost var counted := Filter(ordered[..i], Eligible(scope));
      assert ordered[..i + 1] == ordered[..i] + [head];
      FilterConcat(ordered[..i], [head], Eligible(scope));
      FilterOne(head, Eligible(scope));
      assert counted + [] == counted;
      if !IsMaterialDecision(head, scope, true) {
        continue;
      }
      CountOne(counted, reports, a, head);
      a := a.(denominator := a.denominator + 1);
      if head.id !in reports {
        a := a.(reasons := a.reasons[ReceiptFailed := Listed(a, ReceiptFailed) + [head.id]]);
        continue;
      }
      var reason := ClassifyReconstructibility(head, reports[head.id]);
      if reason.None? {
        a := a.(numerator := a.numerator + 1);
        continue;
      }
      a := a.(reasons := a.reasons[reason.value := Listed(a, reason.value) + [head.id]]);
    }
    assert ordered[..|ordered|] == ordered;
    var todo := a.reasons.Keys;
    while todo != {}
      invariant todo <= a.reasons.Keys && Counted(EligibleHeads(heads, scope), reports, a)
      decreases todo
    {
      var r :| r in todo;
      ListsAreSorted(heads, scope, reports, a, r);
      assert a.reasons[r := a.reasons[r]] == a.reasons;
      a := a.(reasons := a.reasons[r := StableSorted(a.reasons[r], TextKey())]);
      todo := todo - {r};
    }
  }

  lemma NothingCounted(reports: map<string, Report>, keep: Memory -> bool)
    ensures Counted(Filter([], keep), reports, Aggregate(0, 0, map[]))
  {
  }

  /** How one more eligible head is counted. */
  lemma CountOne(eligible: seq<Memory>, reports: map<string, Report>, a: Aggregate, m: Memory)
    requires Counted(eligible, reports, a)
    ensures
      var b := a.(denominator := a.denominator + 1);
      Counted(eligible + [m], reports,
              match Verdict(reports, m)
              case None => b.(numerator := b.numerator + 1)
              case Some(r) => b.(reasons := b.reasons[r := Listed(b, r) + [m.id]]))
  {
    hide Filter, Mapped, Verdict;
    FilterConcat(eligible, [m], Reconstructible(reports));
    FilterOne(m, Reconstructible(reports));
    forall r ensures Mapped(Filter(eligible + [m], FailedFor(reports, r)), IdOf()) ==
                     Mapped(Filter(eligible, FailedFor(reports, r)), IdOf()) + if Verdict(reports, m) == Some(r) then [m.id] else []
    {
      FilterConcat(eligible, [m], FailedFor(reports, r));
      FilterOne(m, FailedFor(reports, r));
      MappedGrows(Filter(eligible, FailedFor(reports, r)), m, IdOf());
      assert Filter(eligible, FailedFor(reports, r)) + [] == Filter(eligible, FailedFor(reports, r));
    }
  }

  lemma {:induction false} MappedGrows<T, U>(s: seq<T>, x: T, f: T -> U)
    ensures Mapped(s + [x], f) == Mapped(s, f) + [f(x)]
  {
  }

  // ------------------------------------------------------------------ sorting

  lemma FilterKeepsSorted<T>(s: seq<T>, keep: T -> bool, key: T -> Key)
    requires Sorted(s, key)
    ensures Sorted(Filter(s, keep), key)
  {
    hide Filter, KeyLessEq;
    forall k, l | 0 <= k < l < |Filter(s, keep)| ensures KeyLessEq(key(Filter(s, keep)[k]), key(Filter(s, keep)[l])) {
      var i, j := FilterOrigins(s, keep, k, l);
    }
  }

  /** Sorting a sorted list changes nothing. */
  lemma SortedStays<T(!new)>(s: seq<T>, key: T -> Key)
    requires Sorted(s, key)
    ensures StableSorted(s, key) == s
  {
    StableSortIsUnique(s, s, key);
  }

  /** The ids under a reason were pushed in order already. */
  lemma ListsAreSorted(heads: seq<Memory>, scope: Scope, reports: map<string, Report>, a: Aggregate, r: Reason)
    requires Counted(EligibleHeads(heads, scope), reports, a) && r in a.reasons
    ensures StableSorted(a.reasons[r], TextKey()) == a.reasons[r]
  {
    hide Filter, StableSorted, KeyLessEq, FailedFor, Eligible;
    var ordered := StableSorted(heads, ById());
    SortsStably(heads, ById());
    var listed := Filter(EligibleHeads(heads, scope), FailedFor(reports, r));
    FilterKeepsSorted(ordered, Eligible(scope), ById());
    FilterKeepsSorted(EligibleHeads(heads, scope), FailedFor(reports, r), ById());
    assert Listed(a, r) == Mapped(listed, IdOf());
    forall i, j | 0 <= i < j < |listed| ensures KeyLessEq(TextKey()(listed[i].id), TextKey()(listed[j].id)) {
      assert KeyLessEq(ById()(listed[i]), ById()(listed[j]));
    }
    SortedStays(a.reasons[r], TextKey());
  }

  // ------------------------------------------------------------- conservation

  lemma FilterHead(s: seq<Memory>, keep: Memory -> bool)
    requires s != []
    ensures |Filter(s, keep)| == (if keep(s[0]) then 1 else 0) + |Filter(s[1..], keep)|
  {
  }

  lemma {:induction false} PlacesCount(eligible: seq<Memory>, reports: map<string, Report>)
    ensures
      |Filter(eligible, Reconstructible(reports))| + |Filter(eligible, FailedFor(reports, NotApproved))| +
      |Filter(eligible, FailedFor(reports, ReceiptFailed))| + |Filter(eligible, FailedFor(reports, MissingEvidence))| +
      |Filter(eligible, FailedFor(reports, EvidenceMissingObject))| + |Filter(eligible, FailedFor(reports, RuleUnresolved))| +
      |Filter(eligible, FailedFor(reports, RuleVersionFailed))| == |eligible|
  {
    hide Verdict, Filter;
    forall keep: Memory -> bool | eligible != []
      ensures |Filter(eligible, keep)| == (if keep(eligible[0]) then 1 else 0) + |Filter(eligible[1..], keep)|
    {
      FilterHead(eligible, keep);
    }
    if eligible != [] {
      var v := Verdict(reports, eligible[0]);
      assert v.None? || v.value.NotApproved? || v.value.ReceiptFailed? || v.value.MissingEvidence? ||
             v.value.EvidenceMissingObject? || v.value.RuleUnresolved? || v.value.RuleVersionFailed?;
      PlacesCount(eligible[1..], reports);
    }
  }

  /** Every eligible decision is counted exactly once: the numerator and the lengths of the reason lists add up
      to the denominator, and no list holds an unapproved one. */
  lemma DecisionsAreConserved(heads: seq<Memory>, reports: map<string, Report>, scope: Scope, a: Aggregate)
    requires Counted(EligibleHeads(heads, scope), reports, a)
    ensures a.numerator + |Listed(a, ReceiptFailed)| + |Listed(a, MissingEvidence)| + |Listed(a, EvidenceMissingObject)| +
            |Listed(a, RuleUnresolved)| + |Listed(a, RuleVersionFailed)| == a.denominator
    ensures NotApproved !in a.reasons
  {
    hide Filter, Mapped, StableSorted, Classify;
    var eligible := EligibleHeads(heads, scope);
    PlacesCount(eligible, reports);
    assert Listed(a, NotApproved) == Mapped(Filter(eligible, FailedFor(reports, NotApproved)), IdOf());
    forall m | m in eligible ensures !FailedFor(reports, NotApproved)(m) {
      ApprovedIsNotUnapproved(reports, m);
    }
    FilterNone(eligible, FailedFor(reports, NotApproved));
  }

  lemma ApprovedIsNotUnapproved(reports: map<string, Report>, m: Memory)
    requires m.status == Approved
    ensures Verdict(reports, m) != Some(NotApproved)
  {
  }

  /** With distinct ids, an eligible decision stands under exactly the reason of its own report. */
  lemma ListedIff(heads: seq<Memory>, reports: map<string, Report>, scope: Scope, a: Aggregate, m: Memory, r: Reason)
    requires Counted(EligibleHeads(heads, scope), reports, a)
    requires forall x, y | x in heads && y in heads && x.id == y.id :: x == y
    requires m in heads && IsMaterialDecision(m, scope, true)
    ensures m.id in Listed(a, r) <==> Verdict(reports, m) == Some(r)
  {
    hide StableSorted, Verdict, IsMaterialDecision, Mapped;
    SortKeepsRows(heads, ById());
    var eligible := EligibleHeads(heads, scope);
    var listed := Filter(eligible, FailedFor(reports, r));
    assert Listed(a, r) == Mapped(listed, IdOf());
    assert m in eligible;
    if m.id in Listed(a, r) {
      var i :| 0 <= i < |Listed(a, r)| && Listed(a, r)[i] == m.id;
      assert listed[i] in eligible && listed[i].id == m.id;
      assert listed[i] in heads;
    }
    if Verdict(reports, m) == Some(r) {
      assert m in listed;
      var i :| 0 <= i < |listed| && listed[i] == m;
      assert Listed(a, r)[i] == m.id;
    }
  }

  lemma CountedIsFixed(eligible: seq<Memory>, reports: map<string, Report>, a: Aggregate, b: Aggregate)
    requires Counted(eligible, reports, a) && Counted(eligible, reports, b)
    ensures a == b
  {
    hide Filter, Mapped;
    forall r ensures r in a.reasons <==> r in b.reasons {
      assert Listed(a, r) == Listed(b, r);
    }
    forall r | r in a.reasons ensures a.reasons[r] == b.reasons[r] {
      assert Listed(a, r) == Listed(b, r);
    }
    assert a.reasons == b.reasons;
  }

  /** The metric does not depend on the order of the heads. */
  lemma OrderDoesNotCount(heads: seq<Memory>, other: seq<Memory>, reports: map<string, Report>, scope: Scope, a: Aggregate, b: Aggregate)
    requires multiset(heads) == multiset(other) && forall x, y | x in heads && y in heads && x.id == y.id :: x == y
    requires Counted(EligibleHeads(heads, scope), reports, a) && Counted(EligibleHeads(other, scope), reports, b)
    ensures a == b
  {
    forall x, y | x in heads && y in heads && ById()(x) == ById()(y) ensures x == y {
      assert ById()(x)[0] == ById()(y)[0];
    }
    OrderDoesNotMatter(heads, other, ById());
    CountedIsFixed(EligibleHeads(heads, scope), reports, a, b);
  }

  // -------------------------------------------------------------------- layers

  predicate Relevant(name: LayerName) {
    OfReceipts(name) || name == EvidenceAvailability || name == ObjectAvailability || name == RuleAvailability ||
    name == RuleVersionVigencia
  }

  ghost predicate OneLayerPerName(report: Report) {
    forall i, j | 0 <= i < j < |report| :: report[i].name == report[j].name ==> OfReceipts(report[i].name)
  }

  lemma {:induction false} LayerFailedIff(report: Report, name: LayerName)
    requires OneLayerPerName(report) && !OfReceipts(name)
    ensures LayerFailed(report, name) <==> exists i :: 0 <= i < |report| && report[i] == Layer(name, Failed)
  {
    if report != [] {
      LayerFailedIff(report[1..], name);
      assert forall i | 0 < i < |report| :: report[i] == report[1..][i - 1];
      if LayerFailed(report[1..], name) {
        var i :| 0 <= i < |report[1..]| && report[1..][i] == Layer(name, Failed);
        assert report[i + 1] == Layer(name, Failed);
      }
    }
  }

  /** An approved decision counts as reconstructible exactly when no relevant layer of its report failed. A layer
      that was skipped, or is not in the report at all, does not stand in the way. */
  lemma ReconstructibleIff(m: Memory, report: Report)
    requires m.status == Approved && OneLayerPerName(report)
    ensures Classify(m, report).None? <==> forall i | 0 <= i < |report| && Relevant(report[i].name) :: report[i].status != Failed
  {
    LayerFailedIff(report, EvidenceAvailability);
    LayerFailedIff(report, ObjectAvailability);
    LayerFailedIff(report, RuleAvailability);
    LayerFailedIff(report, RuleVersionVigencia);
  }

  /** The layers of a receipt's checks and of the approval's provenance. */
  predicate ReceiptLayer(name: LayerName) {
    name in {PayloadCanonicalization, EnvelopeIntegrity, SignatureLayer, SigningKeyValidity, TenantCompanyScope, ChainLink,
             PrincipalProvenance}
  }

  lemma OfReceiptsIff(name: LayerName)
    ensures OfReceipts(name) <==> ReceiptLayer(name)
  {
    assert RECEIPT_LAYERS[0] == PayloadCanonicalization && RECEIPT_LAYERS[1] == EnvelopeIntegrity && RECEIPT_LAYERS[2] == SignatureLayer;
    assert RECEIPT_LAYERS[3] == SigningKeyValidity && RECEIPT_LAYERS[4] == TenantCompanyScope && RECEIPT_LAYERS[5] == ChainLink;
  }

  /** A layer of this name, or of a receipt for None, failed. */
  ghost predicate Fails(report: Report, name: Option<LayerName>) {
    exists layer | layer in report :: layer.status == Failed && if name.Some? then layer.name == name.value else ReceiptLayer(layer.name)
  }

  lemma FailsIff(report: Report)
    requires OneLayerPerName(report)
    ensures ReceiptChainFailed(report) <==> Fails(report, None)
    ensures LayerFailed(report, EvidenceAvailability) <==> Fails(report, Some(EvidenceAvailability))
    ensures LayerFailed(report, ObjectAvailability) <==> Fails(report, Some(ObjectAvailability))
    ensures LayerFailed(report, RuleAvailability) <==> Fails(report, Some(RuleAvailability))
    ensures LayerFailed(report, RuleVersionVigencia) <==> Fails(report, Some(RuleVersionVigencia))
  {
    hide LayerFailed, OfReceipts, ReceiptLayer;
    forall name ensures OfReceipts(name) <==> ReceiptLayer(name) {
      OfReceiptsIff(name);
    }
    FourAreNoReceipts();
    LayerFailsIff(report, EvidenceAvailability);
    LayerFailsIff(report, ObjectAvailability);
    LayerFailsIff(report, RuleAvailability);
    LayerFailsIff(report, RuleVersionVigencia);
    if ReceiptChainFailed(report) {
      var i :| 0 <= i < |report| && OfReceipts(report[i].name) && report[i].status == Failed;
      assert report[i] in report;
    }
  }

  lemma FourAreNoReceipts()
    ensures !OfReceipts(EvidenceAvailability) && !OfReceipts(ObjectAvailability)
    ensures !OfReceipts(RuleAvailability) && !OfReceipts(RuleVersionVigencia)
  {
  }

  lemma LayerFailsIff(report: Report, name: LayerName)
    requires OneLayerPerName(report) && !OfReceipts(name)
    ensures LayerFailed(report, name) <==> Fails(report, Some(name))
  {
    hide LayerFailed, OneLayerPerName, OfReceipts;
    LayerFailedIff(report, name);
    if i :| 0 <= i < |report| && report[i] == Layer(name, Failed) {
      assert report[i] in report;
    }
  }

  /** The reason under which an eligible decision is listed: a failed receipt layer, or a missing report, before missing
      evidence, before a missing object, before an unresolved rule, before a rule version out of force. */
  ghost predicate Explains(reports: map<string, Report>, m: Memory, reason: Reason) {
    if m.id !in reports then reason == ReceiptFailed
    else
      var report := reports[m.id];
      match reason
      case ReceiptFailed => Fails(report, None)
      case MissingEvidence => Fails(report, Some(EvidenceAvailability)) && !Fails(report, None)
      case EvidenceMissingObject =>
        Fails(report, Some(ObjectAvailability)) && !Fails(report, None) && !Fails(report, Some(EvidenceAvailability))
      case RuleUnresolved =>
        Fails(report, Some(RuleAvailability)) && !Fails(report, None) && !Fails(report, Some(EvidenceAvailability)) &&
        !Fails(report, Some(ObjectAvailability))
      case RuleVersionFailed =>
        Fails(report, Some(RuleVersionVigencia)) && !Fails(report, None) && !Fails(report, Some(EvidenceAvailability)) &&
        !Fails(report, Some(ObjectAvailability)) && !Fails(report, Some(RuleAvailability))
      case NotApproved => false
  }

  /** A decision that counts: approved in exactly this scope, material or critical, and of any fiscal effect but a bare
      approval. */
  predicate Counts(m: Memory, scope: Scope) {
    && m.scope == scope && m.status == Approved && m.materialityLevel in {Material, Critical}
    && m.fiscalEffect !in {NoEffect, FiscalEffect.Approval}
  }

  lemma CountsIff(m: Memory, scope: Scope)
    ensures IsMaterialDecision(m, scope, true) <==> Counts(m, scope)
  {
    assert m.fiscalEffect.NoEffect? || m.fiscalEffect.JournalEntry? || m.fiscalEffect.Declaration? || m.fiscalEffect.Closing? ||
           m.fiscalEffect.Adjustment? || m.fiscalEffect.Reclassification? || m.fiscalEffect.Approval? || m.fiscalEffect.SunatFiling?;
  }

  lemma VerdictExplains(reports: map<string, Report>, m: Memory, reason: Reason)
    requires m.status == Approved && forall id | id in reports :: OneLayerPerName(reports[id])
    ensures Verdict(reports, m) == Some(reason) <==> Explains(reports, m, reason)
  {
    hide Fails, LayerFailed, ReceiptChainFailed, OneLayerPerName;
    if m.id in reports {
      FailsIff(reports[m.id]);
    }
  }

  /** The metric in words: a head that counts is listed exactly under the reason that explains it, no other id is listed,
      and the denominator is the number of heads that count. */
  lemma AggregateInWords(heads: seq<Memory>, reports: map<string, Report>, scope: Scope, a: Aggregate, id: string, reason: Reason)
    requires Counted(EligibleHeads(heads, scope), reports, a)
    requires forall i, j | 0 <= i < j < |heads| :: heads[i].id != heads[j].id
    requires forall k | k in reports :: OneLayerPerName(reports[k])
    ensures id in Listed(a, reason) <==> exists m | m in heads :: m.id == id && Counts(m, scope) && Explains(reports, m, reason)
    ensures a.denominator == |set m | m in heads && Counts(m, scope)|
  {
    hide StableSorted, Verdict, IsMaterialDecision, Counts, Explains, Filter, Sorted;
    forall m ensures IsMaterialDecision(m, scope, true) <==> Counts(m, scope) {
      CountsIff(m, scope);
    }
    forall m | Counts(m, scope) ensures Verdict(reports, m) == Some(reason) <==> Explains(reports, m, reason) {
      CountsAreApproved(m, scope);
      VerdictExplains(reports, m, reason);
    }
    ListedAre(heads, reports, scope, a, id, reason);
    EligibleCount(heads, scope);
    assert (set m | m in heads && IsMaterialDecision(m, scope, true)) == set m | m in heads && Counts(m, scope);
  }

  lemma CountsAreApproved(m: Memory, scope: Scope)
    requires Counts(m, scope)
    ensures m.status == Approved
  {
  }

  lemma ListedAre(heads: seq<Memory>, reports: map<string, Report>, scope: Scope, a: Aggregate, id: string, r: Reason)
    requires Counted(EligibleHeads(heads, scope), reports, a)
    ensures id in Listed(a, r) <==>
            exists m | m in heads :: m.id == id && IsMaterialDecision(m, scope, true) && Verdict(reports, m) == Some(r)
  {
    hide StableSorted, Verdict, IsMaterialDecision, Mapped;
    SortKeepsRows(heads, ById());
    var listed := Filter(EligibleHeads(heads, scope), FailedFor(reports, r));
    assert Listed(a, r) == Mapped(listed, IdOf());
    if id in Listed(a, r) {
      var i :| 0 <= i < |Listed(a, r)| && Listed(a, r)[i] == id;
      assert listed[i] in listed && listed[i].id == id;
    }
    if m :| m in heads && m.id == id && IsMaterialDecision(m, scope, true) && Verdict(reports, m) == Some(r) {
      assert m in EligibleHeads(heads, scope) && m in listed;
      var i :| 0 <= i < |listed| && listed[i] == m;
      assert Listed(a, r)[i] == id;
    }
  }

  lemma EligibleCount(heads: seq<Memory>, scope: Scope)
    requires forall i, j | 0 <= i < j < |heads| :: heads[i].id != heads[j].id
    ensures |EligibleHeads(heads, scope)| == |set m | m in heads && IsMaterialDecision(m, scope, true)|
  {
    hide StableSorted, IsMaterialDecision, Sorted;
    var sorted := StableSorted(heads, ById());
    SortsStably(heads, ById());
    SortKeepsRows(heads, ById());
    assert Distinct(heads);
    SameMultisetDistinct(heads, sorted);
    FilterKeepsDistinct(sorted, Eligible(scope));
    CountDistinct(EligibleHeads(heads, scope));
    assert (set m | m in EligibleHeads(heads, scope)) == set m | m in heads && IsMaterialDecision(m, scope, true);
  }

  lemma {:induction false} CountDistinct(s: seq<Memory>)
    requires Distinct(s)
    ensures |set m | m in s| == |s|
  {
    if s != [] {
      CountDistinct(s[1..]);
      assert s == [s[0]] + s[1..];
      assert (set m | m in s) == {s[0]} + set m | m in s[1..];
    }
  }

  // ---------------------------------------------------------------- percentage

  const MAX_SAFE_INTEGER := 0x1F_FFFF_FFFF_FFFF

  /** Integer percentage, computed without a product that could grow large; None when there is none to show. */
  function Percentage(numerator: int, denominator: int): Option<int> {
    if denominator <= 0 then None
    else if numerator <= 0 then Some(0)
    else
      var q, r := numerator / denominator, numerator % denominator;
      if q > MAX_SAFE_INTEGER / 100 then None else Some(q * 100 + r * 100 / denominator)
  }

  lemma DivisionIsFixed(n: int, d: int, q: int)
    requires d > 0 && q * d <= n < q * d + d
    ensures n / d == q
  {
    var k := n / d;
    assert k * d <= n < k * d + d;
    assert k < q ==> (k + 1) * d <= q * d;
    assert k > q ==> (q + 1) * d <= k * d;
  }

  /** A percentage that is shown is the floor of the exact one. */
  lemma PercentageIsFloor(numerator: nat, denominator: int)
    ensures Percentage(numerator, denominator).None? <==>
            denominator <= 0 || numerator / denominator > MAX_SAFE_INTEGER / 100
    ensures Percentage(numerator, denominator).Some? ==>
              Percentage(numerator, denominator).value == numerator * 100 / denominator
  {
    if denominator > 0 {
      var q, r := numerator / denominator, numerator % denominator;
      var p := r * 100 / denominator;
      assert numerator == q * denominator + r;
      assert p * denominator <= r * 100 < p * denominator + denominator;
      assert (q * 100 + p) * denominator == q * denominator * 100 + p * denominator;
      DivisionIsFixed(numerator * 100, denominator, q * 100 + p);
    }
  }

  /** Of a count and a part of it, the percentage is 100 only when the part is the whole, and 0 only below one
      in a hundred. */
  lemma HundredMeansAll(numerator: nat, denominator: nat)
    requires numerator <= denominator && denominator > 0
    ensures Percentage(numerator, denominator).Some? && 0 <= Percentage(numerator, denominator).value <= 100
    ensures Percentage(numerator, denominator) == Some(100) <==> numerator == denominator
    ensures Percentage(numerator, denominator) == Some(0) <==> numerator * 100 < denominator
  {
    PercentageIsFloor(numerator, denominator);
    WholeIsAtMostOne(numerator, denominator);
    FloorAgainst(numerator * 100, denominator, 1);
    FloorAgainst(numerator * 100, denominator, 100);
    FloorAgainst(numerator * 100, denominator, 101);
  }

  lemma WholeIsAtMostOne(n: nat, d: int)
    requires n <= d && d > 0
    ensures 0 <= n / d <= 1
  {
    DivisionIsFixed(n, d, if n == d then 1 else 0);
  }

  lemma FloorAgainst(n: int, d: int, bound: int)
    requires d > 0
    ensures n / d >= bound <==> n >= bound * d
  {
    var k := n / d;
    assert k * d <= n < k * d + d;
    assert k >= bound ==> k * d >= bound * d;
    assert k < bound ==> (k + 1) * d <= bound * d;
  }
}
