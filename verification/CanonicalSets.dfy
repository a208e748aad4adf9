/** Canonical lists: unique, sorted, empty strings dropped. References and principal roles are sets that
    are written this way, so that order and repetition never reach a digest. */
module CanonicalSets {
  import opened Text

  predicate StrictlySorted(l: seq<string>) {
    forall i, j | 0 <= i < j < |l| :: Less(l[i], l[j])
  }

  function Elements(l: seq<string>): set<string> {
    set s | s in l
  }

  function Insert(s: string, l: seq<string>): seq<string> {
    if l == [] then [s]
    else if Less(s, l[0]) then [s] + l
    else if s == l[0] then l
    else [l[0]] + Insert(s, l[1..])
  }

  /** `[...new Set(l.filter(s => s !== ""))].sort()`. */
  function Canonical(l: seq<string>): seq<string> {
    if l == [] then []
    else if l[|l| - 1] == "" then Canonical(l[..|l| - 1])
    else Insert(l[|l| - 1], Canonical(l[..|l| - 1]))
  }

  lemma {:induction false} InsertElements(s: string, l: seq<string>)
    ensures Elements(Insert(s, l)) == Elements(l) + {s}
  {
    hide Less;
    if l != [] && !Less(s, l[0]) && s != l[0] {
      InsertElements(s, l[1..]);
      assert Elements(l) == {l[0]} + Elements(l[1..]);
      assert Elements(Insert(s, l)) == {l[0]} + Elements(Insert(s, l[1..]));
    }
  }

  lemma {:induction false} InsertSorts(s: string, l: seq<string>)
    requires StrictlySorted(l)
    ensures StrictlySorted(Insert(s, l)) && Elements(Insert(s, l)) == Elements(l) + {s}
  {
    hide Less;
    InsertElements(s, l);
    if l != [] {
      LessTotal(s, l[0]);
      if Less(s, l[0]) {
        forall j | 0 < j < |l| ensures Less(s, l[j]) {
          LessTransitive(s, l[0], l[j]);
        }
      } else if s != l[0] {
        InsertSorts(s, l[1..]);
        var rest := Insert(s, l[1..]);
        forall j | 0 <= j < |rest| ensures Less(l[0], rest[j]) {
          assert rest[j] in Elements(rest);
        }
      }
    }
  }

  lemma {:induction false} CanonicalIsSorted(l: seq<string>)
    ensures StrictlySorted(Canonical(l)) && Elements(Canonical(l)) == Elements(l) - {""}
  {
    if l != [] {
      var before, last := l[..|l| - 1], l[|l| - 1];
      CanonicalIsSorted(before);
      assert l == before + [last];
      assert Elements(l) == Elements(before) + {last};
      if last != "" {
        InsertSorts(last, Canonical(before));
      }
    }
  }

  lemma HeadIsLeast(l: seq<string>, s: string)
    requires StrictlySorted(l) && s in l
    ensures s == l[0] || Less(l[0], s)
  {
  }

  lemma EmptyIffNoElements(l: seq<string>)
    ensures l == [] <==> Elements(l) == {}
  {
    if l != [] {
      assert l[0] in Elements(l);
    }
  }

  /** A strictly sorted list is determined by its elements. */
  lemma {:induction false} SortedIsUnique(a: seq<string>, b: seq<string>)
    requires StrictlySorted(a) && StrictlySorted(b) && Elements(a) == Elements(b)
    ensures a == b
  {
    EmptyIffNoElements(a);
    EmptyIffNoElements(b);
    if a != [] {
      assert a[0] in Elements(b) && b[0] in Elements(a);
      HeadIsLeast(a, b[0]);
      HeadIsLeast(b, a[0]);
      if a[0] != b[0] {
        LessAsymmetric(a[0], b[0]);
      }
      LessIrreflexive(a[0]);
      assert Elements(a[1..]) == Elements(a) - {a[0]};
      assert Elements(b[1..]) == Elements(b) - {b[0]};
      SortedIsUnique(a[1..], b[1..]);
      assert a == [a[0]] + a[1..] && b == [b[0]] + b[1..];
    }
  }

  /** Two lists have the same canonical form exactly when they hold the same non-empty strings. */
  lemma CanonicalIffSameElements(a: seq<string>, b: seq<string>)
    ensures Canonical(a) == Canonical(b) <==> Elements(a) - {""} == Elements(b) - {""}
  {
    CanonicalIsSorted(a);
    CanonicalIsSorted(b);
    if Elements(a) - {""} == Elements(b) - {""} {
      SortedIsUnique(Canonical(a), Canonical(b));
    }
  }

  // ----------------------------------------------------------------- lengths

  lemma {:induction false} InsertLengthens(s: string, l: seq<string>)
    requires s !in l && s != "" && forall i | 0 <= i < |l| :: l[i] != ""
    ensures |JoinNul(Insert(s, l))| > |JoinNul(l)|
    ensures |Insert(s, l)| == |l| + 1
  {
    if l != [] && !Less(s, l[0]) && s != l[0] {
      InsertLengthens(s, l[1..]);
      assert ([l[0]] + Insert(s, l[1..]))[1..] == Insert(s, l[1..]);
    } else if l != [] && Less(s, l[0]) {
      assert ([s] + l)[1..] == l;
    }
  }

  /** One more non-empty string makes the joined canonical form longer, whatever characters it holds. */
  lemma NewElementShows(l: seq<string>, s: string)
    requires s != "" && s !in l
    ensures |JoinNul(Canonical(l + [s]))| > |JoinNul(Canonical(l))|
  {
    assert (l + [s])[..|l|] == l;
    CanonicalIsSorted(l);
    forall i | 0 <= i < |Canonical(l)| ensures Canonical(l)[i] != "" && Canonical(l)[i] != s {
      assert Canonical(l)[i] in Elements(Canonical(l));
    }
    InsertLengthens(s, Canonical(l));
  }
}
