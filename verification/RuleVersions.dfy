/** Which revision of a rule is in force at an instant, and when a pinned revision resolves. */
module RuleVersions {
  import opened Text
  import opened Records
  import opened Lists

  /** A declared validity window. The end is "" when open. */
  datatype Window = Window(start: string, end: string)

  datatype RuleRevision = RuleRevision(id: string, effectiveAt: string, window: Option<Window>)

  datatype RuleError = TargetInvalid | NotInForce | VigenciaOverlap | VersionMismatch

  datatype Resolution = Resolved(rule: RuleRevision) | Unresolved(error: RuleError)

  /** Half-open windows; a revision without one is in force from its own effective date on. */
  predicate InForce(m: RuleRevision, instant: string) {
    if m.window.None? || m.window.value.start == "" then m.effectiveAt != "" && LessEq(m.effectiveAt, instant)
    else
      var w := m.window.value;
      LessEq(w.start, instant) && (w.end == "" || Less(instant, w.end))
  }

  function At(instant: string): RuleRevision -> bool {
    m => InForce(m, instant)
  }

  method RuleInForceAt(chain: seq<RuleRevision>, instant: string) returns (inForce: seq<RuleRevision>)
    ensures inForce == Filter(chain, At(instant))
  {
    hide Filter, Less;
    inForce := [];
    for i := 0 to |chain|
      invariant inForce == Filter(chain[..i], At(instant))
    {
      var m := chain[i];
      assert chain[..i + 1] == chain[..i] + [m];
      FilterConcat(chain[..i], [m], At(instant));
      FilterOne(m, At(instant));
      LessDecides(instant, if m.window.Some? then m.window.value.start else "");
      LessDecides(instant, if m.window.Some? then m.window.value.end else "");
      if m.window.None? || m.window.value.start == "" {
        if m.effectiveAt != "" && LessEq(m.effectiveAt, instant) {
          inForce := inForce + [m];
        }
        continue;
      }
      if Less(instant, m.window.value.start) {
        continue;
      }
      if m.window.value.end != "" && LessEq(m.window.value.end, instant) {
        continue;
      }
      inForce := inForce + [m];
    }
    assert chain[..|chain|] == chain;
  }

  lemma LessDecides(a: string, b: string)
    ensures Less(a, b) <==> !LessEq(b, a)
  {
    LessTotal(a, b);
    LessIrreflexive(a);
    if Less(a, b) {
      LessAsymmetric(a, b);
    }
  }

  method ResolveRuleVersionFromChain(chain: seq<RuleRevision>, pinnedId: string, decisionTime: string)
    returns (r: Resolution)
    ensures r == Resolve(chain, pinnedId, decisionTime)
  {
    if pinnedId == "" || decisionTime == "" {
      return Unresolved(TargetInvalid);
    }
    var inForce := RuleInForceAt(chain, decisionTime);
    if |inForce| == 0 {
      return Unresolved(NotInForce);
    }
    if |inForce| > 1 {
      return Unresolved(VigenciaOverlap);
    }
    if inForce[0].id != pinnedId {
      return Unresolved(VersionMismatch);
    }
    r := Resolved(inForce[0]);
  }

  function Resolve(chain: seq<RuleRevision>, pinnedId: string, instant: string): Resolution {
    var inForce := Filter(chain, At(instant));
    if pinnedId == "" || instant == "" then Unresolved(TargetInvalid)
    else if inForce == [] then Unresolved(NotInForce)
    else if |inForce| > 1 then Unresolved(VigenciaOverlap)
    else if inForce[0].id != pinnedId then Unresolved(VersionMismatch)
    else Resolved(inForce[0])
  }

  /** Filtering down to one row: there is exactly one place where the condition holds. */
  lemma {:induction false} FilterToOne<T>(s: seq<T>, keep: T -> bool)
    ensures |Filter(s, keep)| == 1 <==> exists i :: 0 <= i < |s| && OnlyAt(s, keep, i)
    ensures forall i | 0 <= i < |s| && OnlyAt(s, keep, i) :: Filter(s, keep) == [s[i]]
  {
    if s != [] {
      FilterToOne(s[1..], keep);
      if keep(s[0]) {
        if |Filter(s, keep)| == 1 {
          assert Filter(s[1..], keep) == [];
          assert OnlyAt(s, keep, 0);
        }
        forall i | 0 <= i < |s| && OnlyAt(s, keep, i) ensures Filter(s, keep) == [s[i]] {
          assert i == 0;
          forall x | x in s[1..] ensures !keep(x) {
            var j :| 0 <= j < |s[1..]| && s[1..][j] == x;
            assert s[j + 1] == x;
          }
          FilterNone(s[1..], keep);
        }
      } else {
        if |Filter(s, keep)| == 1 {
          var i :| 0 <= i < |s[1..]| && OnlyAt(s[1..], keep, i);
          assert OnlyAt(s, keep, i + 1);
        }
        forall i | 0 <= i < |s| && OnlyAt(s, keep, i) ensures Filter(s, keep) == [s[i]] {
          assert OnlyAt(s[1..], keep, i - 1);
        }
      }
    }
  }

  ghost predicate OnlyAt<T>(s: seq<T>, keep: T -> bool, i: nat)
    requires i < |s|
  {
    forall j | 0 <= j < |s| :: keep(s[j]) <==> j == i
  }

  /** A pin resolves exactly when one revision, the pinned one, is in force at the instant. */
  lemma ResolvesIff(chain: seq<RuleRevision>, pinnedId: string, instant: string, rule: RuleRevision)
    ensures Resolve(chain, pinnedId, instant) == Resolved(rule) <==>
            pinnedId != "" && instant != "" && rule.id == pinnedId &&
            exists i :: 0 <= i < |chain| && OnlyAt(chain, At(instant), i) && chain[i] == rule
  {
    FilterToOne(chain, At(instant));
  }

  /** Each revision's window ends where the next one starts, and only the last one is open. */
  predicate Consecutive(chain: seq<RuleRevision>) {
    && (forall i | 0 <= i < |chain| :: chain[i].window.Some? && chain[i].window.value.start != "")
    && (forall i | 0 <= i < |chain| - 1 ::
          chain[i].window.value.end == chain[i + 1].window.value.start &&
          Less(chain[i].window.value.start, chain[i + 1].window.value.start))
    && (chain != [] ==> chain[|chain| - 1].window.value.end == "")
  }

  lemma {:induction false} StartsAscend(chain: seq<RuleRevision>, i: nat, j: nat)
    requires Consecutive(chain) && i < j < |chain|
    ensures Less(chain[i].window.value.start, chain[j].window.value.start)
    decreases j - i
  {
    if i + 1 < j {
      StartsAscend(chain, i, j - 1);
      LessTransitive(chain[i].window.value.start, chain[j - 1].window.value.start, chain[j].window.value.start);
    }
  }

  /** The last revision that has started. */
  function Started(chain: seq<RuleRevision>, instant: string): (i: nat)
    requires Consecutive(chain) && chain != [] && LessEq(chain[0].window.value.start, instant)
    ensures i < |chain| && LessEq(chain[i].window.value.start, instant)
    ensures i + 1 < |chain| ==> Less(instant, chain[i + 1].window.value.start)
  {
    StartedFrom(chain, instant, 0)
  }

  function StartedFrom(chain: seq<RuleRevision>, instant: string, at: nat): (i: nat)
    requires Consecutive(chain) && at < |chain| && LessEq(chain[at].window.value.start, instant)
    ensures at <= i < |chain| && LessEq(chain[i].window.value.start, instant)
    ensures i + 1 < |chain| ==> Less(instant, chain[i + 1].window.value.start)
    decreases |chain| - at
  {
    if at + 1 < |chain| && LessEq(chain[at + 1].window.value.start, instant) then StartedFrom(chain, instant, at + 1)
    else
      if at + 1 < |chain| then LessDecides(instant, chain[at + 1].window.value.start); at else at
  }

  lemma LessEqThenLess(a: string, b: string, c: string)
    requires LessEq(a, b) && Less(b, c)
    ensures Less(a, c)
  {
    if a != b {
      LessTransitive(a, b, c);
    }
  }

  /** With consecutive windows every instant from the first start on has exactly one revision in force, so
      exactly one pin resolves: no gap and no overlap. */
  lemma ConsecutiveWindowsResolve(chain: seq<RuleRevision>, pinnedId: string, instant: string)
    requires Consecutive(chain) && chain != [] && instant != "" && pinnedId != ""
    requires LessEq(chain[0].window.value.start, instant)
    ensures
      var rule := chain[Started(chain, instant)];
      Resolve(chain, pinnedId, instant) == if rule.id == pinnedId then Resolved(rule) else Unresolved(VersionMismatch)
  {
    var i := Started(chain, instant);
    forall j | 0 <= j < |chain| ensures At(instant)(chain[j]) <==> j == i {
      var start := chain[j].window.value.start;
      if j < i {
        if j + 1 < i {
          StartsAscend(chain, j + 1, i);
        }
        var end := chain[j].window.value.end;
        if Less(instant, end) {
          LessEqThenLess(chain[i].window.value.start, instant, end);
          LessAsymmetric(chain[i].window.value.start, end);
        }
      } else if j > i {
        if i + 1 < j {
          StartsAscend(chain, i + 1, j);
          LessTransitive(instant, chain[i + 1].window.value.start, start);
        }
        LessDecides(instant, start);
      }
    }
    assert OnlyAt(chain, At(instant), i);
    FilterToOne(chain, At(instant));
  }

  /** Without declared windows a revision never leaves force: once two have taken effect, no pin resolves. */
  lemma OpenRevisionsOverlap(chain: seq<RuleRevision>, i: nat, j: nat, pinnedId: string, instant: string)
    requires i < j < |chain| && instant != "" && pinnedId != ""
    requires chain[i].window.None? && chain[i].effectiveAt != "" && LessEq(chain[i].effectiveAt, instant)
    requires chain[j].window.None? && chain[j].effectiveAt != "" && LessEq(chain[j].effectiveAt, instant)
    ensures Resolve(chain, pinnedId, instant) == Unresolved(VigenciaOverlap)
  {
    FilterToOne(chain, At(instant));
    assert chain[i] in chain && At(instant)(chain[i]);
    forall only | 0 <= only < |chain| ensures !OnlyAt(chain, At(instant), only) {
      assert At(instant)(chain[i]) && At(instant)(chain[j]);
    }
  }
}
