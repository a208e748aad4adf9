/** Sorting rows by a key of strings and numbers: what any sort must deliver, and when that leaves no choice. */
module Sorting {
  import opened Text

  datatype Part = S(text: string) | N(number: int)

  type Key = seq<Part>

  predicate PartLess(a: Part, b: Part) {
    match (a, b)
    case (S(x), S(y)) => Less(x, y)
    case (N(x), N(y)) => x < y
    case (S(_), N(_)) => true
    case (N(_), S(_)) => false
  }

  /** Field by field: the first difference decides. */
  predicate KeyLess(a: Key, b: Key) {
    if b == [] then false
    else if a == [] then true
    else PartLess(a[0], b[0]) || (a[0] == b[0] && KeyLess(a[1..], b[1..]))
  }

  lemma PartOrder(a: Part, b: Part, c: Part)
    ensures !PartLess(a, a)
    ensures a == b || PartLess(a, b) || PartLess(b, a)
    ensures PartLess(a, b) && PartLess(b, c) ==> PartLess(a, c)
  {
    if a.S? {
      LessIrreflexive(a.text);
      if b.S? {
        LessTotal(a.text, b.text);
        if c.S? && Less(a.text, b.text) && Less(b.text, c.text) {
          LessTransitive(a.text, b.text, c.text);
        }
      }
    }
  }

  lemma {:induction false} KeyIrreflexive(a: Key)
    ensures !KeyLess(a, a)
  {
    if a != [] {
      PartOrder(a[0], a[0], a[0]);
      KeyIrreflexive(a[1..]);
    }
  }

  lemma {:induction false} KeyTotal(a: Key, b: Key)
    ensures a == b || KeyLess(a, b) || KeyLess(b, a)
  {
    if a != [] && b != [] {
      PartOrder(a[0], b[0], b[0]);
      KeyTotal(a[1..], b[1..]);
      assert a == [a[0]] + a[1..] && b == [b[0]] + b[1..];
    }
  }

  lemma {:induction false} KeyTransitive(a: Key, b: Key, c: Key)
    requires KeyLess(a, b) && KeyLess(b, c)
    ensures KeyLess(a, c)
  {
    if a != [] {
      PartOrder(a[0], b[0], c[0]);
      if a[0] == b[0] && b[0] == c[0] {
        KeyTransitive(a[1..], b[1..], c[1..]);
      }
    }
  }

  /** a does not come after b. */
  predicate KeyLessEq(a: Key, b: Key) {
    a == b || KeyLess(a, b)
  }

  lemma KeyLessEqTransitive(a: Key, b: Key, c: Key)
    requires KeyLessEq(a, b) && KeyLessEq(b, c)
    ensures KeyLessEq(a, c)
  {
    if KeyLess(a, b) && KeyLess(b, c) {
      KeyTransitive(a, b, c);
    }
  }

  lemma KeyAntisymmetric(a: Key, b: Key)
    requires KeyLessEq(a, b) && KeyLessEq(b, a)
    ensures a == b
  {
    if KeyLess(a, b) && KeyLess(b, a) {
      KeyTransitive(a, b, a);
      KeyIrreflexive(a);
    }
  }

  // ----------------------------------------------------------------- sorting

  predicate Sorted<T>(s: seq<T>, key: T -> Key) {
    forall i, j | 0 <= i < j < |s| :: KeyLessEq(key(s[i]), key(s[j]))
  }

  ghost predicate SortedPermutation<T>(s: seq<T>, sorted: seq<T>, key: T -> Key) {
    multiset(sorted) == multiset(s) && Sorted(sorted, key)
  }

  /** Rows with the same key are the same row. */
  ghost predicate TieFree<T>(s: seq<T>, key: T -> Key) {
    forall x, y | x in s && y in s && key(x) == key(y) :: x == y
  }

  /** The library sort: nothing but a sorted permutation is promised, in particular no order of ties. */
  method SortBy<T>(a: array<T>, key: T -> Key)
    modifies a
    ensures SortedPermutation(old(a[..]), a[..], key)
  {
    for i := 0 to a.Length
      invariant Sorted(a[..i], key)
      invariant multiset(a[..]) == old(multiset(a[..]))
    {
      InsertLast(a, i, key);
    }
    assert a[..] == a[..a.Length];
  }

  /** Moves a[last] down into the sorted rows before it. */
  method InsertLast<T>(a: array<T>, last: nat, key: T -> Key)
    requires last < a.Length && Sorted(a[..last], key)
    modifies a
    ensures Sorted(a[..last + 1], key)
    ensures multiset(a[..]) == old(multiset(a[..]))
  {
    var j := last;
    while j > 0 && KeyLess(key(a[j]), key(a[j - 1]))
      invariant 0 <= j <= last
      invariant forall k, l | 0 <= k < l <= last && l != j :: KeyLessEq(key(a[k]), key(a[l]))
      invariant forall l | j < l <= last :: KeyLessEq(key(a[j]), key(a[l]))
      invariant multiset(a[..]) == old(multiset(a[..]))
    {
      a[j], a[j - 1] := a[j - 1], a[j];
      j := j - 1;
    }
    Placed(a[..last + 1], j, key);
  }

  /** A row that is not before its neighbour below is in place. */
  lemma Placed<T>(s: seq<T>, j: nat, key: T -> Key)
    requires j < |s| && (j == 0 || !KeyLess(key(s[j]), key(s[j - 1])))
    requires forall k, l | 0 <= k < l < |s| && l != j :: KeyLessEq(key(s[k]), key(s[l]))
    requires forall l | j < l < |s| :: KeyLessEq(key(s[j]), key(s[l]))
    ensures Sorted(s, key)
  {
    forall k | 0 <= k < j ensures KeyLessEq(key(s[k]), key(s[j])) {
      KeyTotal(key(s[j]), key(s[j - 1]));
      if k < j - 1 {
        assert KeyLessEq(key(s[k]), key(s[j - 1]));
        KeyLessEqTransitive(key(s[k]), key(s[j - 1]), key(s[j]));
      }
    }
  }

  // -------------------------------------------------------------- determinism

  lemma HeadIsLeast<T>(s: seq<T>, x: T, key: T -> Key)
    requires Sorted(s, key) && x in s
    ensures KeyLessEq(key(s[0]), key(x))
  {
    var i :| 0 <= i < |s| && s[i] == x;
  }

  lemma TailMultiset<T>(s: seq<T>)
    requires s != []
    ensures multiset(s[1..]) == multiset(s) - multiset{s[0]}
  {
    assert s == [s[0]] + s[1..];
  }

  /** Without ties, sorting leaves no choice. */
  lemma {:induction false} SortIsDetermined<T>(a: seq<T>, b: seq<T>, key: T -> Key)
    requires multiset(a) == multiset(b) && Sorted(a, key) && Sorted(b, key) && TieFree(a, key)
    ensures a == b
  {
    assert |a| == |multiset(a)| == |b|;
    if a != [] {
      assert a[0] in multiset(b) && b[0] in multiset(a);
      HeadIsLeast(b, a[0], key);
      HeadIsLeast(a, b[0], key);
      KeyAntisymmetric(key(a[0]), key(b[0]));
      TailMultiset(a);
      TailMultiset(b);
      forall x | x in a[1..] ensures x in a {
      }
      SortIsDetermined(a[1..], b[1..], key);
      assert a == [a[0]] + a[1..] && b == [b[0]] + b[1..];
    }
  }

  /** With ties, there is always a second answer. */
  lemma TiesLeaveAChoice<T>(s: seq<T>, sorted: seq<T>, key: T -> Key) returns (other: seq<T>)
    requires SortedPermutation(s, sorted, key) && !TieFree(s, key)
    ensures SortedPermutation(s, other, key) && other != sorted
  {
    var x, y :| x in s && y in s && key(x) == key(y) && x != y;
    assert x in multiset(sorted) && y in multiset(sorted);
    var i :| 0 <= i < |sorted| && sorted[i] == x;
    var j :| 0 <= j < |sorted| && sorted[j] == y;
    other := sorted[i := y][j := x];
    assert other[i] == y;
    forall k, l | 0 <= k < l < |other| ensures KeyLessEq(key(other[k]), key(other[l])) {
      assert key(other[k]) == key(sorted[k]) && key(other[l]) == key(sorted[l]);
    }
  }

  /** Sorting is a function of the rows, whatever their order, exactly when there are no ties. */
  lemma SortIsDeterminedIff<T(!new)>(s: seq<T>, sorted: seq<T>, key: T -> Key)
    requires SortedPermutation(s, sorted, key)
    ensures TieFree(s, key) <==> forall other | SortedPermutation(s, other, key) :: other == sorted
  {
    if TieFree(s, key) {
      forall other | SortedPermutation(s, other, key) ensures other == sorted {
        forall x, y | x in other && y in other && key(x) == key(y) ensures x == y {
          assert x in multiset(s) && y in multiset(s);
        }
        SortIsDetermined(other, sorted, key);
      }
    } else {
      var other := TiesLeaveAChoice(s, sorted, key);
    }
  }
}
