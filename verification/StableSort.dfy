/** The sort of JavaScript arrays: by key, and rows with equal keys keep their order (ECMA-262, section 23.1.3.30). */
module StableSort {
  import opened Sorting
  import opened Lists

  function Insert<T>(sorted: seq<T>, x: T, key: T -> Key): seq<T> {
    if sorted == [] || KeyLessEq(key(sorted[|sorted| - 1]), key(x)) then sorted + [x]
    else Insert(sorted[..|sorted| - 1], x, key) + [sorted[|sorted| - 1]]
  }

  function StableSorted<T>(s: seq<T>, key: T -> Key): seq<T> {
    if s == [] then [] else Insert(StableSorted(s[..|s| - 1], key), s[|s| - 1], key)
  }

  function Has<T>(key: T -> Key, k: Key): T -> bool {
    x => key(x) == k
  }

  /** The rows with one key, in their order. */
  function Group<T>(s: seq<T>, key: T -> Key, k: Key): seq<T> {
    Filter(s, Has(key, k))
  }

  /** What a stable sort must deliver. */
  ghost predicate StablySorted<T(!new)>(s: seq<T>, sorted: seq<T>, key: T -> Key) {
    Sorted(sorted, key) && forall k :: Group(sorted, key, k) == Group(s, key, k)
  }

  lemma LastSplit<T>(s: seq<T>)
    requires s != []
    ensures s == s[..|s| - 1] + [s[|s| - 1]]
  {
  }

  lemma {:induction false} InsertSorted<T>(sorted: seq<T>, x: T, key: T -> Key)
    requires Sorted(sorted, key)
    ensures Sorted(Insert(sorted, x, key), key) && multiset(Insert(sorted, x, key)) == multiset(sorted + [x])
    ensures forall y | y in Insert(sorted, x, key) :: y in sorted || y == x
  {
    if sorted != [] {
      var last, front := sorted[|sorted| - 1], sorted[..|sorted| - 1];
      LastSplit(sorted);
      if KeyLessEq(key(last), key(x)) {
        forall i | 0 <= i < |sorted| ensures KeyLessEq(key(sorted[i]), key(x)) {
          KeyLessEqTransitive(key(sorted[i]), key(last), key(x));
        }
      } else {
        InsertSorted(front, x, key);
        KeyTotal(key(last), key(x));
        var inserted := Insert(front, x, key);
        forall i | 0 <= i < |inserted| ensures KeyLessEq(key(inserted[i]), key(last)) {
          assert inserted[i] in front || inserted[i] == x;
        }
        assert multiset(inserted + [last]) == multiset(front + [x]) + multiset{last};
      }
    }
  }

  lemma {:induction false} InsertGroups<T>(sorted: seq<T>, x: T, key: T -> Key, k: Key)
    ensures Group(Insert(sorted, x, key), key, k) == Group(sorted, key, k) + Group([x], key, k)
  {
    hide Filter, KeyLess;
    FilterConcat(sorted, [x], Has(key, k));
    if sorted != [] && !KeyLessEq(key(sorted[|sorted| - 1]), key(x)) {
      var last, front := sorted[|sorted| - 1], sorted[..|sorted| - 1];
      LastSplit(sorted);
      InsertGroups(front, x, key, k);
      FilterConcat(Insert(front, x, key), [last], Has(key, k));
      FilterConcat(front, [last], Has(key, k));
      OneOfTwo(last, x, key, k);
    }
  }

  /** Of two rows with different keys, at most one is in a group. */
  lemma OneOfTwo<T>(x: T, y: T, key: T -> Key, k: Key)
    requires key(x) != key(y)
    ensures Group([x], key, k) == [] || Group([y], key, k) == []
  {
  }

  lemma {:induction false} SortsStably<T(!new)>(s: seq<T>, key: T -> Key)
    ensures StablySorted(s, StableSorted(s, key), key)
    ensures multiset(StableSorted(s, key)) == multiset(s)
  {
    if s != [] {
      var front, last := s[..|s| - 1], s[|s| - 1];
      SortsStably(front, key);
      LastSplit(s);
      InsertSorted(StableSorted(front, key), last, key);
      forall k ensures Group(StableSorted(s, key), key, k) == Group(s, key, k) {
        InsertGroups(StableSorted(front, key), last, key, k);
        FilterConcat(front, [last], Has(key, k));
      }
    }
  }

  lemma GroupMember<T(!new)>(a: seq<T>, b: seq<T>, key: T -> Key, x: T)
    requires forall k :: Group(a, key, k) == Group(b, key, k)
    requires x in a
    ensures x in b
  {
    assert x in Group(a, key, key(x));
    assert x in Group(b, key, key(x));
  }

  /** Order and groups leave no choice. */
  lemma {:induction false} GroupsFixTheOrder<T(!new)>(a: seq<T>, b: seq<T>, key: T -> Key)
    requires Sorted(a, key) && Sorted(b, key) && forall k :: Group(a, key, k) == Group(b, key, k)
    ensures a == b
  {
    if a != [] {
      GroupMember(a, b, key, a[0]);
    }
    if b != [] {
      GroupMember(b, a, key, b[0]);
    }
    if a != [] && b != [] {
      HeadIsLeast(b, a[0], key);
      HeadIsLeast(a, b[0], key);
      KeyAntisymmetric(key(a[0]), key(b[0]));
      assert Group(a, key, key(a[0]))[0] == a[0] && Group(b, key, key(a[0]))[0] == b[0];
      forall k ensures Group(a[1..], key, k) == Group(b[1..], key, k) {
        TailGroup(a, key, k);
        TailGroup(b, key, k);
      }
      GroupsFixTheOrder(a[1..], b[1..], key);
      assert a == [a[0]] + a[1..] && b == [b[0]] + b[1..];
    }
  }

  lemma TailGroup<T>(s: seq<T>, key: T -> Key, k: Key)
    requires s != []
    ensures Group(s[1..], key, k) == if key(s[0]) == k then Group(s, key, k)[1..] else Group(s, key, k)
  {
  }

  /** There is exactly one stable sort. */
  lemma StableSortIsUnique<T(!new)>(s: seq<T>, sorted: seq<T>, key: T -> Key)
    ensures StablySorted(s, sorted, key) <==> sorted == StableSorted(s, key)
  {
    SortsStably(s, key);
    if StablySorted(s, sorted, key) {
      forall k ensures Group(sorted, key, k) == Group(StableSorted(s, key), key, k) {
        assert Group(sorted, key, k) == Group(s, key, k);
      }
      GroupsFixTheOrder(sorted, StableSorted(s, key), key);
    }
  }

  /** Without ties the input order does not matter. */
  lemma OrderDoesNotMatter<T(!new)>(a: seq<T>, b: seq<T>, key: T -> Key)
    requires multiset(a) == multiset(b) && TieFree(a, key)
    ensures StableSorted(a, key) == StableSorted(b, key)
  {
    SortsStably(a, key);
    SortsStably(b, key);
    forall x, y | x in StableSorted(a, key) && y in StableSorted(a, key) && key(x) == key(y) ensures x == y {
      assert x in multiset(a) && y in multiset(a);
    }
    SortIsDetermined(StableSorted(a, key), StableSorted(b, key), key);
  }

  lemma SortKeepsRows<T(!new)>(s: seq<T>, key: T -> Key)
    ensures |StableSorted(s, key)| == |s|
    ensures forall x :: x in StableSorted(s, key) <==> x in s
  {
    SortsStably(s, key);
    assert |multiset(s)| == |s| && |multiset(StableSorted(s, key))| == |StableSorted(s, key)|;
    forall x ensures x in StableSorted(s, key) <==> x in s {
      assert x in s <==> x in multiset(s);
      assert x in StableSorted(s, key) <==> x in multiset(StableSorted(s, key));
    }
  }

  /** Of two rows of a stable sort with one key, the first stood first. */
  lemma StableOrder<T(!new)>(s: seq<T>, key: T -> Key, k: nat, l: nat) returns (i: nat, j: nat)
    requires k < l < |StableSorted(s, key)| && key(StableSorted(s, key)[k]) == key(StableSorted(s, key)[l])
    ensures i < j < |s| && s[i] == StableSorted(s, key)[k] && s[j] == StableSorted(s, key)[l]
  {
    hide StableSorted, Filter, Sorted;
    var sorted := StableSorted(s, key);
    var g := key(sorted[k]);
    SortsStably(s, key);
    var m, n := FilterKeepsOrder(sorted, Has(key, g), k, l);
    assert Group(sorted, key, g) == Group(s, key, g);
    i, j := FilterOrigins(s, Has(key, g), m, n);
  }

  function Through<T, U>(f: T -> U, key: U -> Key): T -> Key {
    x => key(f(x))
  }

  lemma {:induction false} InsertMapped<T, U>(sorted: seq<T>, x: T, f: T -> U, key: U -> Key)
    ensures Mapped(Insert(sorted, x, Through(f, key)), f) == Insert(Mapped(sorted, f), f(x), key)
  {
    if sorted != [] {
      var front, last := sorted[..|sorted| - 1], sorted[|sorted| - 1];
      LastSplit(sorted);
      MappedAppend(front, last, f);
      if KeyLessEq(key(f(last)), key(f(x))) {
        MappedAppend(sorted, x, f);
      } else {
        InsertMapped(front, x, f, key);
        MappedAppend(Insert(front, x, Through(f, key)), last, f);
        assert Mapped(sorted, f)[..|sorted| - 1] == Mapped(front, f);
      }
    }
  }

  /** Sorting rows by what a function makes of them is sorting what it makes of them. */
  lemma {:induction false} SortMapped<T, U>(s: seq<T>, f: T -> U, key: U -> Key)
    ensures Mapped(StableSorted(s, Through(f, key)), f) == StableSorted(Mapped(s, f), key)
  {
    if s != [] {
      var front, last := s[..|s| - 1], s[|s| - 1];
      LastSplit(s);
      SortMapped(front, f, key);
      InsertMapped(StableSorted(front, Through(f, key)), last, f, key);
      MappedAppend(front, last, f);
      assert Mapped(s, f)[..|s| - 1] == Mapped(front, f);
    }
  }
}
