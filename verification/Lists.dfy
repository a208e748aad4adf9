/** List operations of the read models: filters, and maps that remember insertion order. */
module Lists {

  /** `filter`. */
  function Filter<T>(s: seq<T>, keep: T -> bool): (r: seq<T>)
    ensures |r| <= |s|
    ensures forall x | x in r :: x in s && keep(x)
    ensures forall x | x in s && keep(x) :: x in r
  {
    if s == [] then [] else (if keep(s[0]) then [s[0]] else []) + Filter(s[1..], keep)
  }

  /** `map`. */
  function Mapped<T, U>(s: seq<T>, f: T -> U): (r: seq<U>)
    ensures |r| == |s| && forall i | 0 <= i < |s| :: r[i] == f(s[i])
  {
    if s == [] then [] else [f(s[0])] + Mapped(s[1..], f)
  }

  predicate Distinct<T(==)>(s: seq<T>) {
    forall i, j | 0 <= i < j < |s| :: s[i] != s[j]
  }

  lemma {:induction false} FilterConcat<T>(a: seq<T>, b: seq<T>, keep: T -> bool)
    ensures Filter(a + b, keep) == Filter(a, keep) + Filter(b, keep)
  {
    if a == [] {
      assert a + b == b;
    } else {
      assert (a + b)[1..] == a[1..] + b;
      FilterConcat(a[1..], b, keep);
    }
  }

  lemma {:induction false} FilterNone<T>(s: seq<T>, keep: T -> bool)
    requires forall x | x in s :: !keep(x)
    ensures Filter(s, keep) == []
  {
    if s != [] {
      FilterNone(s[1..], keep);
    }
  }

  lemma {:induction false} FilterAll<T>(s: seq<T>, keep: T -> bool)
    requires forall x | x in s :: keep(x)
    ensures Filter(s, keep) == s
  {
    if s != [] {
      FilterAll(s[1..], keep);
      assert s == [s[0]] + s[1..];
    }
  }

  /** Two filters that agree on the rows keep the same rows. */
  lemma {:induction false} FilterAgrees<T>(s: seq<T>, keep: T -> bool, other: T -> bool)
    requires forall x | x in s :: keep(x) == other(x)
    ensures Filter(s, keep) == Filter(s, other)
  {
    if s != [] {
      FilterAgrees(s[1..], keep, other);
    }
  }

  lemma {:induction false} FilterKeepsDistinct<T>(s: seq<T>, keep: T -> bool)
    requires Distinct(s)
    ensures Distinct(Filter(s, keep))
  {
    if s != [] {
      FilterKeepsDistinct(s[1..], keep);
      assert s[0] !in s[1..];
    }
  }

  /** Distinct lists with the same elements are equally long. */
  lemma SameElementsSameLength<T>(a: seq<T>, b: seq<T>)
    requires Distinct(a) && Distinct(b) && (forall x | x in a :: x in b) && (forall x | x in b :: x in a)
    ensures |a| == |b| && multiset(a) == multiset(b)
  {
    DistinctMultiset(a);
    DistinctMultiset(b);
    forall x ensures multiset(a)[x] == multiset(b)[x] {
      assert x in a <==> x in multiset(a);
      assert x in b <==> x in multiset(b);
    }
    assert multiset(a) == multiset(b);
    assert |a| == |multiset(a)| && |b| == |multiset(b)|;
  }

  lemma {:induction false} DistinctMultiset<T>(s: seq<T>)
    requires Distinct(s)
    ensures forall x | x in s :: multiset(s)[x] == 1
  {
    if s != [] {
      DistinctMultiset(s[1..]);
      assert s == [s[0]] + s[1..];
      assert s[0] !in s[1..];
      forall x | x in s ensures multiset(s)[x] == 1 {
        assert multiset(s)[x] == multiset([s[0]])[x] + multiset(s[1..])[x];
        assert x in s[1..] <==> x in multiset(s[1..]);
      }
    }
  }

  /** Two rows that both pass a filter keep their order in it. */
  lemma {:induction false} FilterKeepsOrder<T>(s: seq<T>, keep: T -> bool, i: nat, j: nat) returns (k: nat, l: nat)
    requires i < j < |s| && keep(s[i]) && keep(s[j])
    ensures k < l < |Filter(s, keep)| && Filter(s, keep)[k] == s[i] && Filter(s, keep)[l] == s[j]
  {
    if i == 0 {
      var rest := Filter(s[1..], keep);
      assert s[1..][j - 1] == s[j] && s[j] in s[1..];
      k := 0;
      var m :| 0 <= m < |rest| && rest[m] == s[j];
      l := m + 1;
    } else {
      k, l := FilterKeepsOrder(s[1..], keep, i - 1, j - 1);
      if keep(s[0]) {
        k, l := k + 1, l + 1;
      }
    }
  }

  /** In a filtered list two rows stand the way they stand in the list it came from. */
  lemma {:induction false} FilterOrigins<T>(s: seq<T>, keep: T -> bool, k: nat, l: nat) returns (i: nat, j: nat)
    requires k < l < |Filter(s, keep)|
    ensures i < j < |s| && s[i] == Filter(s, keep)[k] && s[j] == Filter(s, keep)[l]
  {
    var rest := Filter(s[1..], keep);
    if !keep(s[0]) {
      i, j := FilterOrigins(s[1..], keep, k, l);
      i, j := i + 1, j + 1;
    } else if k == 0 {
      assert rest[l - 1] in s[1..];
      var m :| 0 <= m < |s[1..]| && s[1..][m] == rest[l - 1];
      i, j := 0, m + 1;
    } else {
      i, j := FilterOrigins(s[1..], keep, k - 1, l - 1);
      i, j := i + 1, j + 1;
    }
  }

  lemma FilterMiddle<T>(front: seq<T>, x: T, back: seq<T>, keep: T -> bool)
    ensures Filter(front + [x] + back, keep) == Filter(front, keep) + (if keep(x) then [x] else []) + Filter(back, keep)
  {
    hide Filter;
    FilterConcat(front + [x], back, keep);
    FilterConcat(front, [x], keep);
    FilterOne(x, keep);
  }

  lemma FilterOne<T>(x: T, keep: T -> bool)
    ensures Filter([x], keep) == if keep(x) then [x] else []
  {
  }

  lemma MappedAppend<T, U>(s: seq<T>, x: T, f: T -> U)
    ensures Mapped(s + [x], f) == Mapped(s, f) + [f(x)]
  {
  }

  /** Filtering rows by what a function makes of them is filtering what it makes of them. */
  lemma {:induction false} FilterMapped<T, U>(s: seq<T>, f: T -> U, keep: U -> bool, kept: T -> bool)
    requires forall x :: kept(x) == keep(f(x))
    ensures Mapped(Filter(s, kept), f) == Filter(Mapped(s, f), keep)
  {
    if s != [] {
      FilterMapped(s[1..], f, keep, kept);
    }
  }

  lemma SameMembers<T>(a: seq<T>, b: seq<T>)
    requires multiset(a) == multiset(b)
    ensures |a| == |b| && forall x :: x in a <==> x in b
  {
    assert |a| == |multiset(a)| == |multiset(b)| == |b|;
    forall x ensures x in a <==> x in b {
      assert x in a <==> x in multiset(a);
      assert x in b <==> x in multiset(b);
    }
  }

  lemma SameMultisetDistinct<T>(a: seq<T>, b: seq<T>)
    requires multiset(a) == multiset(b) && Distinct(a)
    ensures Distinct(b)
  {
    DistinctMultiset(a);
    forall i, j | 0 <= i < j < |b| ensures b[i] != b[j] {
      RepeatsCountTwice(b, i, j);
      assert b[i] in multiset(a);
      assert b[i] in a;
    }
  }

  lemma RepeatsCountTwice<T>(s: seq<T>, i: nat, j: nat)
    requires i < j < |s|
    ensures s[i] == s[j] ==> multiset(s)[s[i]] >= 2
  {
    var front, mid, back := s[..i], s[i + 1..j], s[j + 1..];
    assert s == front + [s[i]] + mid + [s[j]] + back;
  }

  // ------------------------------------------------------------ ordered maps

  /** A JavaScript `Map`: setting a key again keeps its place and replaces its value. */
  datatype OrderedMap<V> = OrderedMap(keys: seq<string>, at: map<string, V>) {
    ghost predicate Valid() {
      Distinct(keys) && forall k :: k in keys <==> k in at
    }

    function Put(key: string, value: V): OrderedMap<V> {
      OrderedMap(if key in at then keys else keys + [key], at[key := value])
    }

    lemma PutKeepsValid(key: string, value: V)
      requires Valid()
      ensures Put(key, value).Valid()
    {
    }

    function Values(): (r: seq<V>)
      requires Valid()
      ensures |r| == |keys| && forall i | 0 <= i < |keys| :: r[i] == at[keys[i]]
    {
      seq(|keys|, i requires 0 <= i < |keys| => at[keys[i]])
    }
  }
}
