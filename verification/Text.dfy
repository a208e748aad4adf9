/** Text helpers shared by the store and the canonical encodings: the byte-wise string
    order, NUL-separated joins and blank tests. */
module Text {

  const NUL: char := '\0'

  /** The lexicographic order that JavaScript's and Go's `<` use on strings. */
  predicate Less(a: string, b: string)
  {
    if b == "" then false
    else if a == "" then true
    else a[0] < b[0] || (a[0] == b[0] && Less(a[1..], b[1..]))
  }

  predicate LessEq(a: string, b: string) {
    a == b || Less(a, b)
  }

  lemma {:induction false} LessIrreflexive(a: string)
    ensures !Less(a, a)
  {
    if a != "" {
      LessIrreflexive(a[1..]);
    }
  }

  lemma {:induction false} LessTransitive(a: string, b: string, c: string)
    requires Less(a, b) && Less(b, c)
    ensures Less(a, c)
  {
    if a != "" && a[0] == b[0] && b[0] == c[0] {
      LessTransitive(a[1..], b[1..], c[1..]);
    }
  }

  lemma {:induction false} LessTotal(a: string, b: string)
    ensures a == b || Less(a, b) || Less(b, a)
  {
    if a != "" && b != "" && a[0] == b[0] {
      LessTotal(a[1..], b[1..]);
      assert a == [a[0]] + a[1..];
      assert b == [b[0]] + b[1..];
    }
  }

  lemma LessAsymmetric(a: string, b: string)
    requires Less(a, b)
    ensures !Less(b, a)
  {
    if Less(b, a) {
      LessTransitive(a, b, a);
      LessIrreflexive(a);
    }
  }

  /** The order in words: at the first place where they differ, b goes on or has the larger character. */
  lemma {:induction false} LessIff(a: string, b: string)
    ensures Less(a, b) <==> exists k :: 0 <= k < |b| && k <= |a| && a[..k] == b[..k] && (k == |a| || a[k] < b[k])
  {
    if a != "" && b != "" && a[0] == b[0] {
      LessIff(a[1..], b[1..]);
      if Less(a, b) {
        var k :| 0 <= k < |b[1..]| && k <= |a[1..]| && a[1..][..k] == b[1..][..k] && (k == |a[1..]| || a[1..][k] < b[1..][k]);
        assert a[..k + 1] == [a[0]] + a[1..][..k] && b[..k + 1] == [b[0]] + b[1..][..k];
      }
      if k :| 0 <= k < |b| && k <= |a| && a[..k] == b[..k] && (k == |a| || a[k] < b[k]) {
        assert k > 0;
        assert a[1..][..k - 1] == a[..k][1..] && b[1..][..k - 1] == b[..k][1..];
      }
    } else if b != "" && (a == "" || a[0] < b[0]) {
      assert a[..0] == b[..0];
    } else {
      assert forall k | 0 < k <= |a| && k <= |b| :: a[..k][0] == a[0] && b[..k][0] == b[0];
    }
  }

  /** No NUL character occurs in s. */
  predicate NulFree(s: string) {
    NUL !in s
  }

  /** The characters that JavaScript's `trim` removes. */
  predicate IsSpace(c: char) {
    ('\t' <= c <= '\r') || c == ' ' || c == '\U{00A0}' || c == '\U{1680}' || ('\U{2000}' <= c <= '\U{200A}') ||
    c == '\U{2028}' || c == '\U{2029}' || c == '\U{202F}' || c == '\U{205F}' || c == '\U{3000}' || c == '\U{FEFF}'
  }

  /** `s.trim().length === 0`. */
  predicate Blank(s: string) {
    forall i | 0 <= i < |s| :: IsSpace(s[i])
  }

  function FirstNul(s: string): nat {
    if s == "" || s[0] == NUL then 0 else 1 + FirstNul(s[1..])
  }

  lemma {:induction false} FirstNulAt(a: string, x: string)
    requires NulFree(a)
    ensures FirstNul(a + [NUL] + x) == |a|
  {
    if a != "" {
      FirstNulAt(a[1..], x);
      assert (a + [NUL] + x)[1..] == a[1..] + [NUL] + x;
    }
  }

  /** Splitting at the first NUL is unambiguous when the prefixes carry none. */
  lemma SplitAtNul(a: string, x: string, b: string, y: string)
    requires NulFree(a) && NulFree(b)
    requires a + [NUL] + x == b + [NUL] + y
    ensures a == b && x == y
  {
    FirstNulAt(a, x);
    FirstNulAt(b, y);
    var l := a + [NUL] + x;
    assert a == l[..|a|] && x == l[|a| + 1..];
    assert b == l[..|b|] && y == l[|b| + 1..];
  }

  /** `parts.join("\0")`. */
  function JoinNul(parts: seq<string>): string {
    if parts == [] then ""
    else if |parts| == 1 then parts[0]
    else parts[0] + [NUL] + JoinNul(parts[1..])
  }

  /** Joins of equally many parts agree only on equal parts, when no part but the last
      carries a NUL. */
  lemma {:induction false} JoinNulInjective(a: seq<string>, b: seq<string>)
    requires |a| == |b|
    requires forall i | 0 <= i < |a| - 1 :: NulFree(a[i]) && NulFree(b[i])
    requires JoinNul(a) == JoinNul(b)
    ensures a == b
  {
    if |a| > 1 {
      SplitAtNul(a[0], JoinNul(a[1..]), b[0], JoinNul(b[1..]));
      JoinNulInjective(a[1..], b[1..]);
      assert a == [a[0]] + a[1..];
      assert b == [b[0]] + b[1..];
    }
  }

  lemma {:induction false} JoinNulAppend(a: seq<string>, b: seq<string>)
    requires a != [] && b != []
    ensures JoinNul(a + b) == JoinNul(a) + [NUL] + JoinNul(b)
  {
    if |a| == 1 {
      assert (a + b)[1..] == b;
    } else {
      assert (a + b)[1..] == a[1..] + b;
      JoinNulAppend(a[1..], b);
      assert a[0] + [NUL] + (JoinNul(a[1..]) + [NUL] + JoinNul(b)) == a[0] + [NUL] + JoinNul(a[1..]) + [NUL] + JoinNul(b);
    }
  }

  /** Joins of parts without NUL agree only on equal parts, however many they are. */
  lemma {:induction false} JoinNulOfPlain(a: seq<string>, b: seq<string>)
    requires a != [] && b != [] && JoinNul(a) == JoinNul(b)
    requires (forall x | x in a :: NulFree(x)) && (forall x | x in b :: NulFree(x))
    ensures a == b
  {
    LongJoinHasNul(a);
    LongJoinHasNul(b);
    if |a| > 1 && |b| > 1 {
      SplitAtNul(a[0], JoinNul(a[1..]), b[0], JoinNul(b[1..]));
      JoinNulOfPlain(a[1..], b[1..]);
      assert a == [a[0]] + a[1..] && b == [b[0]] + b[1..];
    } else {
      assert |a| == |b| == 1;
      assert a == [a[0]] && b == [b[0]] && a[0] == JoinNul(a) && b[0] == JoinNul(b);
    }
  }

  lemma LongJoinHasNul(a: seq<string>)
    requires a != [] && forall x | x in a :: NulFree(x)
    ensures |a| > 1 <==> NUL in JoinNul(a)
  {
    if |a| > 1 {
      assert JoinNul(a)[|a[0]|] == NUL;
    } else {
      assert JoinNul(a) == a[0] && a[0] in a;
    }
  }
}
