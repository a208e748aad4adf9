/** When two topics and scopes share one chain key: the exact condition for the scopes that the store accepts. */
module ChainKeys {
  import opened Text
  import opened Records
  import opened FiscalScope

  /** `assertValidScope`. An absent period is "". */
  predicate ValidScope(s: Scope) {
    s.Company? ==>
      && s.organizationId != "" && s.companyId != ""
      && |s.ruc| == 11 && (forall i | 0 <= i < 11 :: IsDigit(s.ruc[i]))
      && (s.period == "" || ValidPeriod(s.period))
  }

  /** The part of a company scope's key that its validation leaves open. */
  function Names(s: Scope): string
    requires s.Company?
  {
    s.organizationId + [NUL] + s.companyId
  }

  function Head(s: Scope): string
    requires s.Company?
  {
    "company" + [NUL] + Names(s)
  }

  lemma SplitAtLastNul(x: string, a: string, y: string, b: string)
    requires NulFree(a) && NulFree(b) && x + [NUL] + a == y + [NUL] + b
    ensures x == y && a == b
  {
    var l := x + [NUL] + a;
    LaterNul(x, a, y, b);
    LaterNul(y, b, x, a);
    assert x == l[..|x|] && a == l[|x| + 1..];
  }

  lemma LaterNul(x: string, a: string, y: string, b: string)
    requires x + [NUL] + a == y + [NUL] + b
    ensures |x| < |y| ==> NUL in a
  {
    var l := x + [NUL] + a;
    assert l == y + [NUL] + b && l[|y|] == NUL;
    if |x| < |y| {
      assert l[|y|] == a[|y| - |x| - 1];
    }
  }

  lemma KeyShape(topic: string, s: Scope)
    ensures ChainKey(topic, s) == topic + [NUL] + ScopeKey(s)
    ensures s.Company? ==> topic + [NUL] + ScopeKey(s) == topic + [NUL] + Head(s) + [NUL] + s.ruc + [NUL] + s.period
  {
    var parts := [topic, ScopeKey(s)];
    assert parts[1..] == [ScopeKey(s)] && JoinNul([ScopeKey(s)]) == ScopeKey(s);
    assert JoinNul(parts) == topic + [NUL] + ScopeKey(s);
    if s.Company? {
      JoinTwo("company", s.organizationId, [s.companyId, s.ruc, s.period]);
      JoinTwo(s.companyId, s.ruc, [s.period]);
      var tail := s.companyId + [NUL] + s.ruc + [NUL] + s.period;
      assert ["company", s.organizationId] + [s.companyId, s.ruc, s.period] == ["company", s.organizationId, s.companyId, s.ruc, s.period];
      assert [s.companyId, s.ruc] + [s.period] == [s.companyId, s.ruc, s.period];
      assert ScopeKey(s) == "company" + [NUL] + s.organizationId + [NUL] + tail;
      Regroup(topic, s.organizationId, s.companyId, s.ruc, s.period);
    }
  }

  lemma Regroup(t: string, o: string, c: string, r: string, p: string)
    ensures t + [NUL] + ("company" + [NUL] + o + [NUL] + (c + [NUL] + r + [NUL] + p)) ==
            t + [NUL] + ("company" + [NUL] + (o + [NUL] + c)) + [NUL] + r + [NUL] + p
  {
  }

  lemma DigitsArePlain(s: Scope)
    requires ValidScope(s) && s.Company?
    ensures NulFree(s.ruc) && NulFree(s.period) && |s.period| <= 6
  {
  }

  /** Two accepted scopes under topics, the shorter one first, share a chain key exactly when they are both
      institutional under one topic, or companies with the same RUC and period whose names run together with
      the topics. */
  predicate SharesChain(topic: string, s: Scope, longer: string, t: Scope)
    requires |topic| <= |longer|
  {
    if s.Company? && t.Company? then
      && s.ruc == t.ruc && s.period == t.period && topic + [NUL] <= longer + [NUL]
      && Head(s) == (longer + [NUL])[|topic| + 1..] + Head(t)
    else s == t && topic == longer
  }

  lemma SharesChainIff(topic: string, s: Scope, longer: string, t: Scope)
    requires ValidScope(s) && ValidScope(t) && |topic| <= |longer|
    ensures ChainKey(topic, s) == ChainKey(longer, t) <==> SharesChain(topic, s, longer, t)
  {
    KeyShape(topic, s);
    KeyShape(longer, t);
    if s.Company? {
      DigitsArePlain(s);
    }
    if t.Company? {
      DigitsArePlain(t);
    }
    if s.Company? && t.Company? {
      CompaniesShareIff(topic, s, longer, t);
    } else if s.Company? != t.Company? && ChainKey(topic, s) == ChainKey(longer, t) {
      MixedKeysDiffer(topic, s, longer, t);
      assert false;
    } else if ChainKey(topic, s) == ChainKey(longer, t) {
      SplitAtLastNul(topic, "institutional", longer, "institutional");
    }
  }

  lemma MixedKeysDiffer(topic: string, s: Scope, longer: string, t: Scope)
    requires ValidScope(s) && ValidScope(t) && s.Company? != t.Company?
    ensures ChainKey(topic, s) != ChainKey(longer, t)
  {
    var company, topicC, topicI := if s.Company? then s else t, if s.Company? then topic else longer, if s.Company? then longer else topic;
    KeyShape(topic, s);
    KeyShape(longer, t);
    DigitsArePlain(company);
    var front := topicC + [NUL] + Head(company) + [NUL] + company.ruc;
    assert |"institutional"| == 13;
    if front + [NUL] + company.period == topicI + [NUL] + "institutional" {
      SplitAtLastNul(front, company.period, topicI, "institutional");
    }
  }

  lemma CompaniesShareIff(topic: string, s: Scope, longer: string, t: Scope)
    requires ValidScope(s) && ValidScope(t) && s.Company? && t.Company? && |topic| <= |longer|
    ensures ChainKey(topic, s) == ChainKey(longer, t) <==> SharesChain(topic, s, longer, t)
  {
    KeyShape(topic, s);
    KeyShape(longer, t);
    DigitsArePlain(s);
    DigitsArePlain(t);
    var a, b := topic + [NUL] + Head(s), longer + [NUL] + Head(t);
    TailsDecide(a, s.ruc, s.period, b, t.ruc, t.period);
    HeadsDecide(topic, Head(s), longer, Head(t));
  }

  lemma TailsDecide(a: string, r: string, p: string, b: string, q: string, w: string)
    requires NulFree(r) && NulFree(p) && NulFree(q) && NulFree(w)
    ensures a + [NUL] + r + [NUL] + p == b + [NUL] + q + [NUL] + w <==> a == b && r == q && p == w
  {
    if a + [NUL] + r + [NUL] + p == b + [NUL] + q + [NUL] + w {
      SplitAtLastNul(a + [NUL] + r, p, b + [NUL] + q, w);
      SplitAtLastNul(a, r, b, q);
    }
  }

  lemma HeadsDecide(topic: string, x: string, longer: string, y: string)
    requires |topic| <= |longer|
    ensures topic + [NUL] + x == longer + [NUL] + y <==>
            topic + [NUL] <= longer + [NUL] && x == (longer + [NUL])[|topic| + 1..] + y
  {
    var t, u := topic + [NUL], longer + [NUL];
    if t + x == u + y {
      assert t == (t + x)[..|t|] && u[..|t|] == (u + y)[..|t|];
      assert x == (t + x)[|t|..] && u[|t|..] + y == (u + y)[|t|..];
    }
    if t <= u && x == u[|t|..] + y {
      assert u == t + u[|t|..];
      assert t + (u[|t|..] + y) == u + y;
    }
  }

  /** A name with a NUL that can be read as the separator. */
  predicate Splittable(s: Scope)
    requires s.Company? && s.companyId != "" && s.organizationId != ""
  {
    NUL in s.organizationId[1..] || NUL in s.companyId[..|s.companyId| - 1]
  }

  /** Under one topic, an accepted company scope shares its key with another accepted one exactly when its
      organization has a NUL after the first character or its company one before the last. */
  lemma TwinIff(topic: string, s: Scope)
    requires ValidScope(s) && s.Company?
    ensures (exists t :: ValidScope(t) && t != s && ChainKey(topic, t) == ChainKey(topic, s)) <==> Splittable(s)
  {
    if Splittable(s) {
      var t := Twin(topic, s);
    }
    if t :| ValidScope(t) && t != s && ChainKey(topic, t) == ChainKey(topic, s) {
      SharesChainIff(topic, s, topic, t);
      SameNames(s, t);
    }
  }

  lemma SameNames(s: Scope, t: Scope)
    requires ValidScope(s) && ValidScope(t) && s.Company? && t.Company? && s != t
    requires s.ruc == t.ruc && s.period == t.period && Head(s) == [] + Head(t)
    ensures Splittable(s)
  {
    assert [] + Head(t) == Head(t);
    assert Names(s) == Head(s)[8..] && Names(t) == Head(t)[8..];
    var n, m := |s.organizationId|, |t.organizationId|;
    var l := Names(s);
    if n == m {
      NamesFix(s, t);
    }
    if m < n {
      assert l[m] == NUL && s.organizationId[1..][m - 1] == l[m];
    } else {
      assert l[m] == NUL && s.companyId[..|s.companyId| - 1][m - n - 1] == l[m];
    }
  }

  lemma NamesFix(s: Scope, t: Scope)
    requires s.Company? && t.Company? && Names(s) == Names(t) && |s.organizationId| == |t.organizationId|
    ensures s.organizationId == t.organizationId && s.companyId == t.companyId
  {
    var l, n := Names(s), |s.organizationId|;
    assert s.organizationId == l[..n] && t.organizationId == l[..n];
    assert s.companyId == l[n + 1..] && t.companyId == l[n + 1..];
  }

  /** The other reading of splittable names. */
  lemma Twin(topic: string, s: Scope) returns (t: Scope)
    requires ValidScope(s) && s.Company? && Splittable(s)
    ensures ValidScope(t) && t.Company? && t.organizationId != s.organizationId && ChainKey(topic, t) == ChainKey(topic, s)
  {
    var l, m := Names(s), 0;
    if NUL in s.organizationId[1..] {
      var i :| 0 <= i < |s.organizationId[1..]| && s.organizationId[1..][i] == NUL;
      m := i + 1;
    } else {
      var i :| 0 <= i < |s.companyId[..|s.companyId| - 1]| && s.companyId[..|s.companyId| - 1][i] == NUL;
      m := |s.organizationId| + 1 + i;
    }
    assert l[m] == NUL && 0 < m < |l| - 1 && m != |s.organizationId|;
    t := s.(organizationId := l[..m], companyId := l[m + 1..]);
    assert Names(t) == l;
    assert |t.organizationId| != |s.organizationId|;
    assert (topic + [NUL])[|topic| + 1..] + Head(t) == Head(s);
    SharesChainIff(topic, s, topic, t);
  }
}
