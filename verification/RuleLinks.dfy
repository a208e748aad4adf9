/** Structured rule links of a new revision: which lists are accepted, and the bare references they leave. */
module RuleLinks {
  import opened Text
  import opened Lists

  /** A reference pinned to one version of a rule at one decision time. */
  datatype PinnedRule = PinnedRule(ref: string, version: string, effectiveAt: string)

  datatype LinkError =
    | InvalidRuleLink | VersionConflict | EffectiveAtMismatch | TargetNotFound | TargetNotARule
    | TargetTopicMismatch | TargetTenantMismatch

  datatype Pins = Pinned(links: seq<PinnedRule>) | Refused(error: LinkError)

  predicate ValidLink(parses: string -> bool, l: PinnedRule) {
    !Blank(l.ref) && !Blank(l.version) && parses(l.effectiveAt)
  }

  function LinkRefs(links: seq<PinnedRule>): (r: seq<string>)
    ensures |r| == |links| && forall i | 0 <= i < |links| :: r[i] == links[i].ref
  {
    Mapped(links, (l: PinnedRule) => l.ref)
  }

  // ---------------------------------------------------------------- pinning

  /** The links without repetitions, or the first reason to refuse the list. */
  function PinsOf(parses: string -> bool, links: seq<PinnedRule>): (r: Pins) {
    if links == [] then Pinned([])
    else
      var earlier, l := PinsOf(parses, links[..|links| - 1]), links[|links| - 1];
      if earlier.Refused? then earlier
      else if !ValidLink(parses, l) then Refused(InvalidRuleLink)
      else if l in earlier.links then earlier
      else if l.ref in LinkRefs(earlier.links) then Refused(VersionConflict)
      else Pinned(earlier.links + [l])
  }

  /** The map of the loop: each reference seen, with the link that pinned it. */
  ghost predicate Seen(seen: map<string, PinnedRule>, links: seq<PinnedRule>) {
    && (forall l | l in links :: l.ref in seen && seen[l.ref] == l)
    && (forall ref | ref in seen :: seen[ref] in links && seen[ref].ref == ref)
  }

  lemma SeenDecides(seen: map<string, PinnedRule>, links: seq<PinnedRule>, l: PinnedRule)
    requires Seen(seen, links)
    ensures l in links <==> l.ref in seen && seen[l.ref] == l
    ensures l.ref in LinkRefs(links) <==> l.ref in seen
    ensures l.ref !in seen ==> Seen(seen[l.ref := l], links + [l])
  {
    if l.ref in LinkRefs(links) {
      var i :| 0 <= i < |links| && LinkRefs(links)[i] == l.ref;
      assert links[i] in links;
    }
    if l.ref in seen {
      var i :| 0 <= i < |links| && links[i] == seen[l.ref];
      assert LinkRefs(links)[i] == l.ref;
    }
  }

  /** `assertValidRuleLinks`. */
  method AssertValidRuleLinks(parses: string -> bool, links: seq<PinnedRule>) returns (r: Pins)
    ensures r == PinsOf(parses, links)
  {
    var seen: map<string, PinnedRule> := map[];
    var out: seq<PinnedRule> := [];
    for i := 0 to |links|
      invariant PinsOf(parses, links[..i]) == Pinned(out) && Seen(seen, out)
    {
      var l := links[i];
      assert links[..i + 1][..i] == links[..i];
      SeenDecides(seen, out, l);
      if !ValidLink(parses, l) {
        RefusalStays(parses, links, i + 1);
        return Refused(InvalidRuleLink);
      }
      if l.ref in seen {
        if seen[l.ref] != l {
          RefusalStays(parses, links, i + 1);
          return Refused(VersionConflict);
        }
        continue;
      }
      seen := seen[l.ref := l];
      out := out + [l];
    }
    assert links[..|links|] == links;
    r := Pinned(out);
  }

  /** The first refusal is the answer. */
  lemma {:induction false} RefusalStays(parses: string -> bool, links: seq<PinnedRule>, n: nat)
    requires n <= |links| && PinsOf(parses, links[..n]).Refused?
    ensures PinsOf(parses, links) == PinsOf(parses, links[..n])
    decreases |links|
  {
    if n < |links| {
      assert links[..|links| - 1][..n] == links[..n];
      RefusalStays(parses, links[..|links| - 1], n);
    } else {
      assert links[..n] == links;
    }
  }

  /** What an accepted list leaves: the same links, one for each reference. */
  lemma {:induction false} PinnedLinks(parses: string -> bool, links: seq<PinnedRule>)
    requires PinsOf(parses, links).Pinned?
    ensures
      var pinned := PinsOf(parses, links).links;
      Distinct(LinkRefs(pinned)) && forall l :: l in pinned <==> l in links
  {
    if links != [] {
      var front, l := links[..|links| - 1], links[|links| - 1];
      PinnedLinks(parses, front);
      var earlier := PinsOf(parses, front).links;
      assert links == front + [l];
      if l !in earlier {
        assert forall i | 0 <= i < |earlier| :: LinkRefs(earlier)[i] in LinkRefs(earlier);
      }
    }
  }

  /** A list is accepted exactly when every link is well formed and no reference is pinned in two ways. */
  lemma {:induction false} PinnedIff(parses: string -> bool, links: seq<PinnedRule>)
    ensures PinsOf(parses, links).Pinned? <==>
            (forall l | l in links :: ValidLink(parses, l)) &&
            (forall l, k | l in links && k in links && l.ref == k.ref :: l == k)
  {
    if links != [] {
      var front, l := links[..|links| - 1], links[|links| - 1];
      PinnedIff(parses, front);
      assert links == front + [l];
      if PinsOf(parses, front).Pinned? {
        PinnedLinks(parses, front);
        var earlier := PinsOf(parses, front).links;
        if l.ref in LinkRefs(earlier) {
          var i :| 0 <= i < |earlier| && LinkRefs(earlier)[i] == l.ref;
          assert earlier[i] in front && earlier[i] in links;
        } else {
          forall k | k in front ensures k.ref != l.ref {
            var i :| 0 <= i < |earlier| && earlier[i] == k;
            assert LinkRefs(earlier)[i] == k.ref;
          }
        }
      }
    }
  }

  // ------------------------------------------------------------ bare references

  /** The references without repetitions and empty ones, in order of first appearance. */
  function UniqueRefs(refs: seq<string>): (r: seq<string>)
    ensures Distinct(r) && forall x :: x in r <==> x in refs && x != ""
  {
    if refs == [] then []
    else
      var earlier, last := UniqueRefs(refs[..|refs| - 1]), refs[|refs| - 1];
      if last == "" || last in earlier then earlier else earlier + [last]
  }

  /** The references of the links that are not there yet, appended. */
  function WithLinkRefs(refs: seq<string>, links: seq<PinnedRule>): (r: seq<string>)
    requires Distinct(refs)
    ensures Distinct(r) && forall x :: x in r <==> x in refs || x in LinkRefs(links)
  {
    if links == [] then refs
    else
      var earlier, ref := WithLinkRefs(refs, links[..|links| - 1]), links[|links| - 1].ref;
      assert links == links[..|links| - 1] + [links[|links| - 1]];
      LinkRefsAppend(links[..|links| - 1], links[|links| - 1]);
      if ref in earlier then earlier else earlier + [ref]
  }

  lemma LinkRefsAppend(links: seq<PinnedRule>, l: PinnedRule)
    ensures LinkRefs(links + [l]) == LinkRefs(links) + [l.ref]
  {
  }

  /** `deriveRuleRefs`: without links the references stay as they came, repetitions included. */
  function DerivedRefs(existing: seq<string>, links: seq<PinnedRule>): seq<string> {
    if links == [] then existing else WithLinkRefs(UniqueRefs(existing), links)
  }

  method DeriveRuleRefs(existing: seq<string>, links: seq<PinnedRule>) returns (refs: seq<string>)
    ensures refs == DerivedRefs(existing, links)
  {
    if |links| == 0 {
      return existing;
    }
    var seen: set<string> := {};
    refs := [];
    for i := 0 to |existing|
      invariant refs == UniqueRefs(existing[..i]) && forall x :: x in seen <==> x in refs
    {
      assert existing[..i + 1][..i] == existing[..i];
      if existing[i] == "" || existing[i] in seen {
        continue;
      }
      seen := seen + {existing[i]};
      refs := refs + [existing[i]];
    }
    assert existing[..|existing|] == existing;
    for i := 0 to |links|
      invariant refs == WithLinkRefs(UniqueRefs(existing), links[..i]) && forall x :: x in seen <==> x in refs
    {
      assert links[..i + 1][..i] == links[..i];
      if links[i].ref in seen {
        continue;
      }
      seen := seen + {links[i].ref};
      refs := refs + [links[i].ref];
    }
    assert links[..|links|] == links;
  }

  /** Derived references repeat none exactly when there are links or none was repeated to begin with. */
  lemma DerivedAreDistinctIff(existing: seq<string>, links: seq<PinnedRule>)
    ensures Distinct(DerivedRefs(existing, links)) <==> links != [] || Distinct(existing)
    ensures links != [] ==> forall x :: x in DerivedRefs(existing, links) <==> (x in existing && x != "") || x in LinkRefs(links)
  {
  }
}
