/** The envelope preimage: what the envelope hash of a memory covers, what changes it and what does not. */
module Envelope {
  import opened Text
  import opened Records
  import opened CanonicalSets

  function StatusName(s: Status): string {
    match s
    case Active => "active"
    case PendingReview => "pending_review"
    case Approved => "approved"
    case Rejected => "rejected"
    case Superseded => "superseded"
    case Voided => "voided"
    case Returned => "returned"
  }

  function EffectName(e: FiscalEffect): string {
    match e
    case NoEffect => "none"
    case JournalEntry => "journal_entry"
    case Declaration => "declaration"
    case Closing => "closing"
    case Adjustment => "adjustment"
    case Reclassification => "reclassification"
    case Approval => "approval"
    case SunatFiling => "sunat_filing"
  }

  function KindName(k: ActorKind): string {
    match k
    case Human => "human"
    case Agent => "agent"
    case System => "system"
  }

  function CanonicalRefs(refs: seq<string>): string {
    JoinNul(Canonical(refs))
  }

  function IdentityPreimage(v: EnvelopeView): string {
    JoinNul([ScopeKey(v.scope), v.topicKey, v.effectiveAt, v.source.reference])
  }

  /** The parts of the preimage before the status, after it, and the whole. */
  function Before(digest: string -> string, v: EnvelopeView): string {
    digest(IdentityPreimage(v)) + [NUL] + v.contentHash + [NUL] + EffectName(v.fiscalEffect)
  }

  function Middle(v: EnvelopeView): string {
    v.source.system + [NUL] + v.source.actorId + [NUL] + KindName(v.source.actorKind) + [NUL] + v.source.model + [NUL] +
    v.source.session + [NUL] + v.recordedAt + [NUL] + v.observedAt + [NUL] + v.supersedesId + [NUL] + v.receiptId
  }

  function Preimage(digest: string -> string, v: EnvelopeView): string {
    Before(digest, v) + [NUL] + StatusName(v.status) + [NUL] + Middle(v) + [NUL] +
    CanonicalRefs(v.evidenceRefs) + [NUL] + CanonicalRefs(v.ruleRefs)
  }

  /** Equal up to the order and the repetition of references, and empty ones. */
  ghost predicate SameUpToRefs(a: EnvelopeView, b: EnvelopeView) {
    && a.(evidenceRefs := [], ruleRefs := []) == b.(evidenceRefs := [], ruleRefs := [])
    && Elements(a.evidenceRefs) - {""} == Elements(b.evidenceRefs) - {""}
    && Elements(a.ruleRefs) - {""} == Elements(b.ruleRefs) - {""}
  }

  /** References are sets: reordering and repeating them never changes the envelope. */
  lemma RefOrderDoesNotShow(digest: string -> string, a: EnvelopeView, b: EnvelopeView)
    requires SameUpToRefs(a, b)
    ensures Preimage(digest, a) == Preimage(digest, b)
  {
    CanonicalIffSameElements(a.evidenceRefs, b.evidenceRefs);
    CanonicalIffSameElements(a.ruleRefs, b.ruleRefs);
    assert a.scope == b.scope && a.status == b.status && a.source == b.source;
    assert IdentityPreimage(a) == IdentityPreimage(b) && Middle(a) == Middle(b);
  }

  /** The two lists run into each other: a reference moved from one list to the other can go unnoticed. */
  lemma RefListsRunTogether(digest: string -> string, v: EnvelopeView)
    ensures Preimage(digest, v.(evidenceRefs := ["a", "b"], ruleRefs := ["c"])) ==
            Preimage(digest, v.(evidenceRefs := ["a"], ruleRefs := ["b", "c"]))
  {
    var a, b := v.(evidenceRefs := ["a", "b"], ruleRefs := ["c"]), v.(evidenceRefs := ["a"], ruleRefs := ["b", "c"]);
    TwoRefs("a", "b");
    TwoRefs("b", "c");
    OneRef("a");
    OneRef("c");
    assert IdentityPreimage(a) == IdentityPreimage(b) && Middle(a) == Middle(b);
    var head := Before(digest, a) + [NUL] + StatusName(a.status) + [NUL] + Middle(a) + [NUL];
    assert head == Before(digest, b) + [NUL] + StatusName(b.status) + [NUL] + Middle(b) + [NUL];
    assert Preimage(digest, a) == head + (("a" + [NUL] + "b") + [NUL] + "c");
    assert Preimage(digest, b) == head + ("a" + [NUL] + ("b" + [NUL] + "c"));
    assert ("a" + [NUL] + "b") + [NUL] + "c" == "a" + [NUL] + ("b" + [NUL] + "c");
  }

  lemma OneRef(x: string)
    requires x != ""
    ensures CanonicalRefs([x]) == x
  {
    assert [x][..0] == [];
    assert Canonical([]) == [];
  }

  lemma TwoRefs(x: string, y: string)
    requires x != "" && y != "" && Less(x, y)
    ensures CanonicalRefs([x, y]) == x + [NUL] + y
  {
    LessAsymmetric(x, y);
    LessIrreflexive(x);
    var l := [x, y];
    assert l[..1] == [x] && [x][..0] == [];
    assert Canonical([x]) == [x];
    assert Insert(y, [x]) == [x] + Insert(y, []);
    assert Canonical(l) == [x, y];
    assert l[1..] == [y];
    assert JoinNul([y]) == y;
  }

  lemma StatusNamesDiffer(a: Status, b: Status)
    requires StatusName(a) == StatusName(b)
    ensures a == b
  {
    assert |StatusName(a)| == |StatusName(b)|;
    assert StatusName(a)[0] == StatusName(b)[0] && StatusName(a)[2] == StatusName(b)[2];
  }

  lemma StatusNamesArePlain(s: Status)
    ensures NulFree(StatusName(s))
  {
  }

  /** A status change always shows, whatever characters the other fields hold. */
  lemma StatusShows(digest: string -> string, v: EnvelopeView, to: Status)
    requires Preimage(digest, v.(status := to)) == Preimage(digest, v)
    ensures to == v.status
  {
    var w := v.(status := to);
    var head := Before(digest, v) + [NUL];
    var tail := Middle(v) + [NUL] + CanonicalRefs(v.evidenceRefs) + [NUL] + CanonicalRefs(v.ruleRefs);
    assert Before(digest, w) == Before(digest, v) && Middle(w) == Middle(v);
    StatusSplits(digest, v, head, tail);
    StatusSplits(digest, w, head, tail);
    assert (head + (StatusName(v.status) + [NUL] + tail))[|head|..] == StatusName(v.status) + [NUL] + tail;
    assert (head + (StatusName(to) + [NUL] + tail))[|head|..] == StatusName(to) + [NUL] + tail;
    StatusNamesArePlain(to);
    StatusNamesArePlain(v.status);
    SplitAtNul(StatusName(to), tail, StatusName(v.status), tail);
    StatusNamesDiffer(to, v.status);
  }

  lemma StatusSplits(digest: string -> string, v: EnvelopeView, head: string, tail: string)
    requires head == Before(digest, v) + [NUL]
    requires tail == Middle(v) + [NUL] + CanonicalRefs(v.evidenceRefs) + [NUL] + CanonicalRefs(v.ruleRefs)
    ensures Preimage(digest, v) == head + (StatusName(v.status) + [NUL] + tail)
  {
  }

  /** A new non-empty reference always shows, on either list, whatever characters it holds. */
  lemma NewRefShows(digest: string -> string, v: EnvelopeView, ref: string)
    requires ref != ""
    ensures ref !in v.ruleRefs ==> Preimage(digest, v.(ruleRefs := v.ruleRefs + [ref])) != Preimage(digest, v)
    ensures ref !in v.evidenceRefs ==> Preimage(digest, v.(evidenceRefs := v.evidenceRefs + [ref])) != Preimage(digest, v)
  {
    PreimageLength(digest, v);
    if ref !in v.ruleRefs {
      var w := v.(ruleRefs := v.ruleRefs + [ref]);
      NewElementShows(v.ruleRefs, ref);
      PreimageLength(digest, w);
      assert IdentityPreimage(w) == IdentityPreimage(v) && Middle(w) == Middle(v);
    }
    if ref !in v.evidenceRefs {
      var w := v.(evidenceRefs := v.evidenceRefs + [ref]);
      NewElementShows(v.evidenceRefs, ref);
      PreimageLength(digest, w);
      assert IdentityPreimage(w) == IdentityPreimage(v) && Middle(w) == Middle(v);
    }
  }

  lemma PreimageLength(digest: string -> string, v: EnvelopeView)
    ensures |Preimage(digest, v)| == |Before(digest, v)| + |StatusName(v.status)| + |Middle(v)| +
                                     |CanonicalRefs(v.evidenceRefs)| + |CanonicalRefs(v.ruleRefs)| + 4
  {
  }
}
