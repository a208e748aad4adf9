/** What the envelope preimage tells apart: every scalar field, and the reference lists up to the exact cases in
    which the two lists can be read in another way. */
module EnvelopeRefs {
  import opened Text
  import opened Records
  import opened CanonicalSets
  import opened Envelope

  // -------------------------------------------------------------- ref segments

  predicate PlainRefs(refs: seq<string>) {
    forall r | r in refs :: NulFree(r)
  }

  /** Sorted without repetition or empty entries, and without NUL. */
  ghost predicate CanonicalList(l: seq<string>) {
    StrictlySorted(l) && "" !in l && PlainRefs(l)
  }

  function Segment(evidence: seq<string>, rules: seq<string>): string {
    JoinNul(evidence) + [NUL] + JoinNul(rules)
  }

  function Fields(l: seq<string>): seq<string> {
    if l == [] then [""] else l
  }

  lemma SegmentIsJoined(evidence: seq<string>, rules: seq<string>)
    ensures Segment(evidence, rules) == JoinNul(Fields(evidence) + Fields(rules))
  {
    assert JoinNul([""]) == "";
    JoinNulAppend(Fields(evidence), Fields(rules));
  }

  lemma SegmentsAgreeIff(e: seq<string>, r: seq<string>, f: seq<string>, s: seq<string>)
    requires CanonicalList(e) && CanonicalList(r) && CanonicalList(f) && CanonicalList(s)
    ensures Segment(e, r) == Segment(f, s) <==> Fields(e) + Fields(r) == Fields(f) + Fields(s)
  {
    SegmentIsJoined(e, r);
    SegmentIsJoined(f, s);
    if Segment(e, r) == Segment(f, s) {
      JoinNulOfPlain(Fields(e) + Fields(r), Fields(f) + Fields(s));
    }
  }

  /** Both lists hold something, three references together, and the last of the first sorts before the first of
      the second: then a reference can change lists. */
  predicate Ambiguous(evidence: seq<string>, rules: seq<string>) {
    evidence != [] && rules != [] && |evidence| + |rules| >= 3 && Less(evidence[|evidence| - 1], rules[0])
  }

  /** Another reading of an ambiguous segment. */
  lemma OtherReading(e: seq<string>, r: seq<string>) returns (f: seq<string>, s: seq<string>)
    requires CanonicalList(e) && CanonicalList(r) && Ambiguous(e, r)
    ensures CanonicalList(f) && CanonicalList(s) && f != e && Segment(f, s) == Segment(e, r)
  {
    if |e| > 1 {
      var last := e[|e| - 1];
      f, s := e[..|e| - 1], [last] + r;
      forall j | 0 < j < |s| ensures Less(s[0], s[j]) {
        if j > 1 {
          LessTransitive(last, r[0], r[j - 1]);
        }
      }
      assert f + s == e + r;
    } else {
      f, s := e + [r[0]], r[1..];
      assert f + s == e + r;
    }
    SegmentsAgreeIff(f, s, e, r);
  }

  lemma EndsOfFields(l: seq<string>)
    requires CanonicalList(l)
    ensures Fields(l)[0] == "" <==> l == []
    ensures Fields(l)[|Fields(l)| - 1] == "" <==> l == []
  {
    if l != [] {
      assert l[0] in l && l[|l| - 1] in l;
    }
  }

  /** A list that reaches beyond a place is sorted across it. */
  lemma SortedAcross(e: seq<string>, r: seq<string>, f: seq<string>, s: seq<string>)
    requires e != [] && r != [] && f != [] && s != [] && e + r == f + s && |e| != |f|
    requires StrictlySorted(f) && StrictlySorted(s)
    ensures Ambiguous(e, r)
  {
    var l, n := e + r, |e|;
    assert l[n - 1] == e[n - 1] && l[n] == r[0];
    if n < |f| {
      assert l[n - 1] == f[n - 1] && l[n] == f[n];
    } else {
      assert l[n - 1] == s[n - 1 - |f|] && l[n] == s[n - |f|];
    }
  }

  /** Two readings of one segment make it ambiguous. */
  lemma TwoReadings(e: seq<string>, r: seq<string>, f: seq<string>, s: seq<string>)
    requires CanonicalList(e) && CanonicalList(r) && CanonicalList(f) && CanonicalList(s)
    requires Segment(e, r) == Segment(f, s) && (e != f || r != s)
    ensures Ambiguous(e, r)
  {
    hide CanonicalList, Segment, Less, NulFree;
    SegmentsAgreeIff(e, r, f, s);
    var a, b := Fields(e) + Fields(r), Fields(f) + Fields(s);
    EndsOfFields(e);
    EndsOfFields(r);
    EndsOfFields(f);
    EndsOfFields(s);
    assert a[0] == b[0] && a[|a| - 1] == b[|b| - 1];
    if |Fields(e)| == |Fields(f)| {
      SameLengthsSameReading(e, r, f, s);
    } else {
      ListsAreSorted(f, s);
      SortedAcross(e, r, f, s);
    }
  }

  lemma ListsAreSorted(f: seq<string>, s: seq<string>)
    requires CanonicalList(f) && CanonicalList(s)
    ensures StrictlySorted(f) && StrictlySorted(s)
  {
  }

  lemma SameLengthsSameReading(e: seq<string>, r: seq<string>, f: seq<string>, s: seq<string>)
    requires CanonicalList(e) && CanonicalList(r) && CanonicalList(f) && CanonicalList(s)
    requires Fields(e) + Fields(r) == Fields(f) + Fields(s) && |Fields(e)| == |Fields(f)|
    ensures e == f && r == s
  {
    var l, n := Fields(e) + Fields(r), |Fields(e)|;
    assert Fields(e) == l[..n] && Fields(f) == (Fields(f) + Fields(s))[..n];
    assert Fields(r) == l[n..] && Fields(s) == (Fields(f) + Fields(s))[n..];
    EndsOfFields(e);
    EndsOfFields(r);
    EndsOfFields(f);
    EndsOfFields(s);
  }

  // -------------------------------------------------------------- the preimage

  lemma CanonicalIsCanonicalList(refs: seq<string>)
    requires PlainRefs(refs)
    ensures CanonicalList(Canonical(refs))
  {
    CanonicalIsSorted(refs);
    forall r | r in Canonical(refs) ensures r != "" && NulFree(r) {
      assert r in Elements(Canonical(refs));
    }
  }

  lemma CanonicalListStays(l: seq<string>)
    requires CanonicalList(l)
    ensures Canonical(l) == l
  {
    CanonicalIsSorted(l);
    assert Elements(l) - {""} == Elements(l);
    SortedIsUnique(Canonical(l), l);
  }

  /** The scalar fields of the preimage, in order. */
  function Scalars(digest: string -> string, v: EnvelopeView): seq<string> {
    [digest(IdentityPreimage(v)), v.contentHash, EffectName(v.fiscalEffect), StatusName(v.status), v.source.system,
     v.source.actorId, KindName(v.source.actorKind), v.source.model, v.source.session, v.recordedAt, v.observedAt,
     v.supersedesId, v.receiptId]
  }

  function SegmentOf(v: EnvelopeView): string {
    Segment(Canonical(v.evidenceRefs), Canonical(v.ruleRefs))
  }

  lemma JoinSnoc(parts: seq<string>, last: string)
    requires parts != []
    ensures JoinNul(parts + [last]) == JoinNul(parts) + [NUL] + last
  {
    assert JoinNul([last]) == last;
    JoinNulAppend(parts, [last]);
  }

  lemma JoinThree(a: string, b: string, c: string)
    ensures JoinNul([a, b, c]) == a + [NUL] + b + [NUL] + c
  {
    JoinSnoc([a], b);
    JoinSnoc([a, b], c);
    assert [a] + [b] == [a, b] && [a, b] + [c] == [a, b, c];
  }

  lemma MiddleIsJoined(v: EnvelopeView)
    ensures Middle(v) == JoinNul([v.source.system, v.source.actorId, KindName(v.source.actorKind), v.source.model,
                                  v.source.session, v.recordedAt, v.observedAt, v.supersedesId, v.receiptId])
  {
    var a, b, c := [v.source.system, v.source.actorId, KindName(v.source.actorKind)],
                   [v.source.model, v.source.session, v.recordedAt], [v.observedAt, v.supersedesId, v.receiptId];
    JoinThree(a[0], a[1], a[2]);
    JoinThree(b[0], b[1], b[2]);
    JoinThree(c[0], c[1], c[2]);
    JoinNulAppend(a, b);
    JoinNulAppend(a + b, c);
    assert a + b + c == [v.source.system, v.source.actorId, KindName(v.source.actorKind), v.source.model,
                         v.source.session, v.recordedAt, v.observedAt, v.supersedesId, v.receiptId];
    Flatten(a[0] + [NUL] + a[1] + [NUL] + a[2], b[0], b[1], b[2], c[0], c[1], c[2]);
  }

  lemma Flatten(h: string, d: string, e: string, f: string, g: string, i: string, j: string)
    ensures h + [NUL] + (d + [NUL] + e + [NUL] + f) + [NUL] + (g + [NUL] + i + [NUL] + j) ==
            h + [NUL] + d + [NUL] + e + [NUL] + f + [NUL] + g + [NUL] + i + [NUL] + j
  {
  }

  lemma PreimageIsJoined(digest: string -> string, v: EnvelopeView)
    ensures Preimage(digest, v) == JoinNul(Scalars(digest, v) + [SegmentOf(v)])
  {
    var head := [digest(IdentityPreimage(v)), v.contentHash, EffectName(v.fiscalEffect)];
    var tail := [v.source.system, v.source.actorId, KindName(v.source.actorKind), v.source.model,
                 v.source.session, v.recordedAt, v.observedAt, v.supersedesId, v.receiptId];
    JoinThree(head[0], head[1], head[2]);
    MiddleIsJoined(v);
    JoinSnoc(head, StatusName(v.status));
    JoinNulAppend(head + [StatusName(v.status)], tail);
    assert head + [StatusName(v.status)] + tail == Scalars(digest, v);
    JoinSnoc(Scalars(digest, v), SegmentOf(v));
    var front := Before(digest, v) + [NUL] + StatusName(v.status) + [NUL] + Middle(v);
    assert front == JoinNul(Scalars(digest, v));
    Reassociate(front, CanonicalRefs(v.evidenceRefs), CanonicalRefs(v.ruleRefs));
  }

  lemma Reassociate(front: string, x: string, y: string)
    ensures front + [NUL] + (x + [NUL] + y) == front + [NUL] + x + [NUL] + y
  {
  }

  /** No scalar field and no digest holds a NUL. */
  ghost predicate PlainView(digest: string -> string, v: EnvelopeView) {
    forall x | x in Scalars(digest, v) :: NulFree(x)
  }

  lemma JoinsAgreeIff(a: seq<string>, x: string, b: seq<string>, y: string)
    requires |a| == |b| && (forall s | s in a :: NulFree(s)) && (forall s | s in b :: NulFree(s))
    ensures JoinNul(a + [x]) == JoinNul(b + [y]) <==> a == b && x == y
  {
    if JoinNul(a + [x]) == JoinNul(b + [y]) {
      JoinNulInjective(a + [x], b + [y]);
      assert a == (a + [x])[..|a|] && b == (b + [y])[..|a|];
      assert (a + [x])[|a|] == (b + [y])[|a|];
    }
  }

  /** Views without NUL have one preimage exactly when their identity digests, all their scalar fields and
      their reference segments agree. */
  lemma PreimagesAgreeIff(digest: string -> string, a: EnvelopeView, b: EnvelopeView)
    requires PlainView(digest, a) && PlainView(digest, b)
    ensures Preimage(digest, a) == Preimage(digest, b) <==>
            && digest(IdentityPreimage(a)) == digest(IdentityPreimage(b))
            && a.contentHash == b.contentHash && a.fiscalEffect == b.fiscalEffect && a.status == b.status
            && a.source.(reference := "") == b.source.(reference := "")
            && a.recordedAt == b.recordedAt && a.observedAt == b.observedAt
            && a.supersedesId == b.supersedesId && a.receiptId == b.receiptId && SegmentOf(a) == SegmentOf(b)
  {
    PreimageIsJoined(digest, a);
    PreimageIsJoined(digest, b);
    JoinsAgreeIff(Scalars(digest, a), SegmentOf(a), Scalars(digest, b), SegmentOf(b));
    ScalarsAgreeIff(digest, a, b);
  }

  lemma ScalarsAgreeIff(digest: string -> string, a: EnvelopeView, b: EnvelopeView)
    ensures Scalars(digest, a) == Scalars(digest, b) <==>
            && digest(IdentityPreimage(a)) == digest(IdentityPreimage(b))
            && a.contentHash == b.contentHash && a.fiscalEffect == b.fiscalEffect && a.status == b.status
            && a.source.(reference := "") == b.source.(reference := "")
            && a.recordedAt == b.recordedAt && a.observedAt == b.observedAt
            && a.supersedesId == b.supersedesId && a.receiptId == b.receiptId
  {
    NamesDiffer(a, b);
    var x, y := Scalars(digest, a), Scalars(digest, b);
    if x == y {
      assert x[0] == y[0] && x[1] == y[1] && x[2] == y[2] && x[3] == y[3] && x[4] == y[4] && x[5] == y[5] && x[6] == y[6];
      assert x[7] == y[7] && x[8] == y[8] && x[9] == y[9] && x[10] == y[10] && x[11] == y[11] && x[12] == y[12];
    }
  }

  lemma NamesDiffer(a: EnvelopeView, b: EnvelopeView)
    ensures EffectName(a.fiscalEffect) == EffectName(b.fiscalEffect) <==> a.fiscalEffect == b.fiscalEffect
    ensures StatusName(a.status) == StatusName(b.status) <==> a.status == b.status
    ensures KindName(a.source.actorKind) == KindName(b.source.actorKind) <==> a.source.actorKind == b.source.actorKind
  {
    if StatusName(a.status) == StatusName(b.status) {
      StatusNamesDiffer(a.status, b.status);
    }
    EffectNamesDiffer(a.fiscalEffect, b.fiscalEffect);
    assert |KindName(Human)| == 5 && |KindName(Agent)| == 5 && |KindName(System)| == 6 && KindName(Human)[0] != KindName(Agent)[0];
  }

  lemma EffectNamesDiffer(a: FiscalEffect, b: FiscalEffect)
    ensures EffectName(a) == EffectName(b) ==> a == b
  {
    if EffectName(a) == EffectName(b) {
      assert |EffectName(a)| == |EffectName(b)|;
      assert EffectName(a)[0] == EffectName(b)[0];
    }
  }

  /** The same view with other references. */
  function WithRefs(v: EnvelopeView, evidence: seq<string>, rules: seq<string>): EnvelopeView {
    v.(evidenceRefs := evidence, ruleRefs := rules)
  }

  lemma RefsOnlyMatter(digest: string -> string, v: EnvelopeView, evidence: seq<string>, rules: seq<string>)
    ensures Preimage(digest, WithRefs(v, evidence, rules)) == Preimage(digest, v) <==>
            Segment(Canonical(evidence), Canonical(rules)) == SegmentOf(v)
  {
    var w := WithRefs(v, evidence, rules);
    assert IdentityPreimage(w) == IdentityPreimage(v) && Middle(w) == Middle(v);
    var front := Before(digest, v) + [NUL] + StatusName(v.status) + [NUL] + Middle(v);
    Reassociate(front, CanonicalRefs(v.evidenceRefs), CanonicalRefs(v.ruleRefs));
    Reassociate(front, CanonicalRefs(evidence), CanonicalRefs(rules));
    SuffixesDecide(front + [NUL], Segment(Canonical(evidence), Canonical(rules)), SegmentOf(v));
  }

  lemma SuffixesDecide(front: string, x: string, y: string)
    ensures front + x == front + y <==> x == y
  {
    assert (front + x)[|front|..] == x && (front + y)[|front|..] == y;
  }

  /** Whether other reference lists would give the same preimage: exactly when both lists hold something, three
      references together, and the last piece of evidence sorts before the first rule. */
  lemma RefsAreAmbiguousIff(digest: string -> string, v: EnvelopeView)
    requires PlainRefs(v.evidenceRefs) && PlainRefs(v.ruleRefs)
    ensures
      (exists evidence, rules :: PlainRefs(evidence) && PlainRefs(rules) &&
         (Canonical(evidence) != Canonical(v.evidenceRefs) || Canonical(rules) != Canonical(v.ruleRefs)) &&
         Preimage(digest, WithRefs(v, evidence, rules)) == Preimage(digest, v)) <==>
      Ambiguous(Canonical(v.evidenceRefs), Canonical(v.ruleRefs))
  {
    var e, r := Canonical(v.evidenceRefs), Canonical(v.ruleRefs);
    CanonicalIsCanonicalList(v.evidenceRefs);
    CanonicalIsCanonicalList(v.ruleRefs);
    if Ambiguous(e, r) {
      var f, s := OtherReading(e, r);
      CanonicalListStays(f);
      CanonicalListStays(s);
      RefsOnlyMatter(digest, v, f, s);
      assert PlainRefs(f) && PlainRefs(s) && Canonical(f) != e && Preimage(digest, WithRefs(v, f, s)) == Preimage(digest, v);
    }
    forall evidence, rules | PlainRefs(evidence) && PlainRefs(rules) &&
      (Canonical(evidence) != e || Canonical(rules) != r) && Preimage(digest, WithRefs(v, evidence, rules)) == Preimage(digest, v)
      ensures Ambiguous(e, r)
    {
      CanonicalIsCanonicalList(evidence);
      CanonicalIsCanonicalList(rules);
      RefsOnlyMatter(digest, v, evidence, rules);
      TwoReadings(e, r, Canonical(evidence), Canonical(rules));
    }
  }
}
