/** The chain order of an exported subject: which ordinals are a complete sequence, and how they are read
    off the hash links when they are not. */
module ExportOrdinals {
  import opened Records
  import opened Lists

  /** One exported receipt: the signed envelope, its payload bytes, its stored digest and chain position. */
  datatype ExportReceipt = ExportReceipt(chainOrdinal: int, receipt: SignedReceipt, payloadJson: string, receiptHash: string)

  // ---------------------------------------------------------- complete sequences

  /** The values 0..n-1, each exactly once, in any order. */
  predicate Complete(ordinals: seq<int>) {
    forall v | 0 <= v < |ordinals| :: v in ordinals
  }

  predicate InRange(ordinals: seq<int>) {
    forall i | 0 <= i < |ordinals| :: 0 <= ordinals[i] < |ordinals|
  }

  function Members<T>(s: seq<T>): set<T> {
    set x | x in s
  }

  function Range(n: nat): (r: set<int>)
    ensures |r| == n && forall v :: v in r <==> 0 <= v < n
  {
    if n == 0 then {} else Range(n - 1) + {n - 1}
  }

  /** A list has at most as many members as places, and exactly as many when no member repeats. */
  lemma {:induction false} CountMembers<T>(s: seq<T>)
    ensures |Members(s)| <= |s|
    ensures |Members(s)| == |s| <==> Distinct(s)
  {
    if s != [] {
      var before, last := s[..|s| - 1], s[|s| - 1];
      CountMembers(before);
      assert s == before + [last];
      assert Members(s) == Members(before) + {last};
      if last in before {
        var i :| 0 <= i < |before| && before[i] == last;
        assert Members(s) == Members(before);
        assert s[i] == s[|s| - 1];
      } else {
        assert Distinct(before) ==> Distinct(s) by {
          assert forall i | 0 <= i < |before| :: s[i] == before[i] && s[i] in before;
        }
        assert Distinct(s) ==> Distinct(before) by {
          assert forall i | 0 <= i < |before| :: s[i] == before[i];
        }
      }
    }
  }

  lemma SubsetOfSameSize<T>(a: set<T>, b: set<T>)
    requires a <= b && |a| >= |b|
    ensures a == b
  {
    assert b == a + (b - a);
  }

  /** Pigeonhole: n ordinals hit every value below n exactly when they are distinct and all below n. */
  lemma CompleteIff(ordinals: seq<int>)
    ensures Complete(ordinals) <==> Distinct(ordinals) && InRange(ordinals)
  {
    var members, range := Members(ordinals), Range(|ordinals|);
    CountMembers(ordinals);
    if Complete(ordinals) {
      forall v | v in range ensures v in members {
        assert v in ordinals;
      }
      SubsetOfSameSize(range, members);
      forall i | 0 <= i < |ordinals| ensures 0 <= ordinals[i] < |ordinals| {
        assert ordinals[i] in members;
      }
    }
    if Distinct(ordinals) && InRange(ordinals) {
      SubsetOfSameSize(members, range);
      forall v | 0 <= v < |ordinals| ensures v in ordinals {
        assert v in members;
      }
    }
  }

  /** `validChainOrdinals`: exactly the complete sequences pass. */
  method ValidChainOrdinals(ordinals: seq<int>) returns (valid: bool)
    ensures valid <==> Complete(ordinals)
  {
    var n := |ordinals|;
    var seen := new bool[n](_ => false);
    CompleteIff(ordinals);
    for i := 0 to n
      invariant forall v | 0 <= v < n :: seen[v] <==> v in ordinals[..i]
      invariant forall k | 0 <= k < i :: 0 <= ordinals[k] < n
      invariant forall j, k | 0 <= j < k < i :: ordinals[j] != ordinals[k]
    {
      var o := ordinals[i];
      if o < 0 || o >= n || seen[o] {
        if 0 <= o < n {
          var j :| 0 <= j < i && ordinals[j] == o;
        }
        return false;
      }
      seen[o] := true;
      assert ordinals[..i + 1] == ordinals[..i] + [o];
    }
    valid := true;
  }

  // ------------------------------------------------------------- chain numbering

  function Hashes(g: seq<ExportReceipt>): set<string> {
    set x | x in g :: x.receiptHash
  }

  function Prev(x: ExportReceipt): string {
    x.receipt.previousReceiptHash
  }

  /** A receipt whose predecessor is empty or outside the group. */
  predicate Root(g: seq<ExportReceipt>, x: ExportReceipt) {
    Prev(x) == "" || Prev(x) !in Hashes(g)
  }

  predicate Linked(g: seq<ExportReceipt>, pos: map<string, nat>, x: ExportReceipt)
    requires pos.Keys == Hashes(g) && x in g
  {
    && pos[x.receiptHash] < |g|
    && if Root(g, x) then pos[x.receiptHash] == 0 else pos[x.receiptHash] == pos[Prev(x)] + 1
  }

  /** The receipts form one chain: distinct hashes, numbered so that the root comes first and every other
      receipt right after the one it links to. */
  ghost predicate ChainNumbering(g: seq<ExportReceipt>, pos: map<string, nat>) {
    && |Hashes(g)| == |g|
    && pos.Keys == Hashes(g)
    && (forall x | x in g :: Linked(g, pos, x))
    && (forall h, k | h in pos && k in pos && pos[h] == pos[k] :: h == k)
  }

  ghost predicate IsChain(g: seq<ExportReceipt>) {
    g != [] && exists pos :: ChainNumbering(g, pos)
  }

  lemma HashesAreMembers(g: seq<ExportReceipt>, hashes: seq<string>)
    requires |hashes| == |g| && forall k | 0 <= k < |g| :: hashes[k] == g[k].receiptHash
    ensures Hashes(g) == Members(hashes)
  {
    forall h | h in Hashes(g) ensures h in hashes {
      var x :| x in g && x.receiptHash == h;
      var k :| 0 <= k < |g| && g[k] == x;
      assert hashes[k] == h;
    }
    forall h | h in hashes ensures h in Hashes(g) {
      var k :| 0 <= k < |hashes| && hashes[k] == h;
      assert g[k] in g;
    }
  }

  /** The hashes are as many as the receipts exactly when no two receipts share one. */
  lemma DistinctHashesIff(g: seq<ExportReceipt>)
    ensures |Hashes(g)| == |g| <==> forall i, j | 0 <= i < j < |g| :: g[i].receiptHash != g[j].receiptHash
  {
    var hashes := seq(|g|, k requires 0 <= k < |g| => g[k].receiptHash);
    HashesAreMembers(g, hashes);
    CountMembers(hashes);
    assert Distinct(hashes) <==> forall i, j | 0 <= i < j < |g| :: g[i].receiptHash != g[j].receiptHash by {
      if Distinct(hashes) {
        forall i, j | 0 <= i < j < |g| ensures g[i].receiptHash != g[j].receiptHash {
          assert hashes[i] != hashes[j];
        }
      }
    }
  }

  /** Links leave no choice: a chain has one numbering only. */
  lemma {:induction false} PositionIsFixed(g: seq<ExportReceipt>, a: map<string, nat>, b: map<string, nat>, x: ExportReceipt)
    requires ChainNumbering(g, a) && ChainNumbering(g, b) && x in g
    ensures a[x.receiptHash] == b[x.receiptHash]
    decreases a[x.receiptHash]
  {
    assert Linked(g, a, x) && Linked(g, b, x);
    if !Root(g, x) {
      var y :| y in g && y.receiptHash == Prev(x);
      PositionIsFixed(g, a, b, y);
    }
  }

  lemma NumberingIsUnique(g: seq<ExportReceipt>, a: map<string, nat>, b: map<string, nat>)
    requires ChainNumbering(g, a) && ChainNumbering(g, b)
    ensures a == b
  {
    forall h | h in a ensures h in b && a[h] == b[h] {
      var x :| x in g && x.receiptHash == h;
      PositionIsFixed(g, a, b, x);
    }
  }

  /** The ordinals of the receipts under a numbering. */
  function OrdinalsUnder(g: seq<ExportReceipt>, pos: map<string, nat>): seq<int>
    requires pos.Keys == Hashes(g)
  {
    seq(|g|, k requires 0 <= k < |g| => pos[g[k].receiptHash])
  }

  /** Every position below n is taken. */
  lemma NumberingIsComplete(g: seq<ExportReceipt>, pos: map<string, nat>)
    requires ChainNumbering(g, pos)
    ensures Complete(OrdinalsUnder(g, pos))
  {
    var ordinals := OrdinalsUnder(g, pos);
    DistinctHashesIff(g);
    forall i | 0 <= i < |ordinals| ensures 0 <= ordinals[i] < |ordinals| {
      assert Linked(g, pos, g[i]);
    }
    CompleteIff(ordinals);
  }

  lemma PositionTaken(g: seq<ExportReceipt>, pos: map<string, nat>, v: nat) returns (k: nat)
    requires ChainNumbering(g, pos) && v < |g|
    ensures k < |g| && pos[g[k].receiptHash] == v
  {
    NumberingIsComplete(g, pos);
    var ordinals := OrdinalsUnder(g, pos);
    assert v in ordinals;
    k :| 0 <= k < |ordinals| && ordinals[k] == v;
  }

  // ------------------------------------------------------------ reconstruction

  /** A walk from a root along the links. */
  ghost predicate Walked(g: seq<ExportReceipt>, order: seq<nat>) {
    && 0 < |order|
    && (forall k | 0 <= k < |order| :: order[k] < |g|)
    && Root(g, g[order[0]])
    && (forall k | 0 < k < |order| :: !Root(g, g[order[k]]) && Prev(g[order[k]]) == g[order[k - 1]].receiptHash)
  }

  /** A walk meets the receipts in the order of any numbering. */
  lemma {:induction false} WalkFollowsNumbering(g: seq<ExportReceipt>, order: seq<nat>, pos: map<string, nat>, k: nat)
    requires Walked(g, order) && ChainNumbering(g, pos) && k < |order|
    ensures pos[g[order[k]].receiptHash] == k
  {
    assert Linked(g, pos, g[order[k]]);
    if k > 0 {
      WalkFollowsNumbering(g, order, pos, k - 1);
    }
  }

  /** The receipt after the last of a walk that does not cover the group: it links to the last one. */
  lemma WalkContinues(g: seq<ExportReceipt>, order: seq<nat>, pos: map<string, nat>) returns (next: nat)
    requires Walked(g, order) && ChainNumbering(g, pos) && |order| < |g|
    ensures next < |g| && !Root(g, g[next]) && next !in order
    ensures Prev(g[next]) == g[order[|order| - 1]].receiptHash
    ensures forall i | 0 <= i < |g| && Prev(g[i]) == g[order[|order| - 1]].receiptHash :: i == next
  {
    var last := g[order[|order| - 1]];
    WalkFollowsNumbering(g, order, pos, |order| - 1);
    next := PositionTaken(g, pos, |order|);
    assert Linked(g, pos, g[next]);
    assert Prev(g[next]) == last.receiptHash;
    forall k | 0 <= k < |order| ensures order[k] != next {
      WalkFollowsNumbering(g, order, pos, k);
    }
    DistinctHashesIff(g);
    forall i | 0 <= i < |g| && Prev(g[i]) == last.receiptHash ensures i == next {
      assert Linked(g, pos, g[i]);
      assert last in g;
    }
  }

  /** The numbering that ordinals give, when no two receipts share a hash. */
  function NumberingOf(g: seq<ExportReceipt>, ordinals: seq<int>): map<string, nat>
    requires |ordinals| == |g| && forall k | 0 <= k < |g| :: ordinals[k] >= 0
    requires forall i, j | 0 <= i < j < |g| :: g[i].receiptHash != g[j].receiptHash
  {
    map k | 0 <= k < |g| :: g[k].receiptHash := ordinals[k] as nat
  }

  lemma NumberingOfHashes(g: seq<ExportReceipt>, ordinals: seq<int>)
    requires |ordinals| == |g| && forall k | 0 <= k < |g| :: ordinals[k] >= 0
    requires forall i, j | 0 <= i < j < |g| :: g[i].receiptHash != g[j].receiptHash
    ensures NumberingOf(g, ordinals).Keys == Hashes(g)
    ensures OrdinalsUnder(g, NumberingOf(g, ordinals)) == ordinals
  {
    var pos := NumberingOf(g, ordinals);
    forall h | h in pos ensures h in Hashes(g) {
      var k :| 0 <= k < |g| && g[k].receiptHash == h;
      assert g[k] in g;
    }
    forall h | h in Hashes(g) ensures h in pos {
      var x :| x in g && x.receiptHash == h;
      var k :| 0 <= k < |g| && g[k] == x;
    }
  }

  /** A walk that covers the group numbers it. */
  lemma CoveringWalkNumbers(g: seq<ExportReceipt>, order: seq<nat>, ordinals: seq<int>) returns (pos: map<string, nat>)
    requires |Hashes(g)| == |g| == |order| == |ordinals| && Walked(g, order)
    requires forall k | 0 <= k < |order| :: ordinals[order[k]] == k
    ensures ChainNumbering(g, pos) && OrdinalsUnder(g, pos) == ordinals
  {
    DistinctHashesIff(g);
    OrderCovers(order, ordinals);
    pos := NumberingOf(g, ordinals);
    NumberingOfHashes(g, ordinals);
    forall k | 0 <= k < |g| ensures pos[g[k].receiptHash] == ordinals[k] {
      assert OrdinalsUnder(g, pos)[k] == ordinals[k];
    }
    WalkLinksAll(g, order, ordinals, pos);
    WalkIsInjective(g, order, ordinals, pos);
  }

  lemma WalkLinksAll(g: seq<ExportReceipt>, order: seq<nat>, ordinals: seq<int>, pos: map<string, nat>)
    requires |g| == |order| == |ordinals| && Walked(g, order)
    requires forall i | 0 <= i < |order| :: 0 <= ordinals[i] < |order| && order[ordinals[i]] == i
    requires forall k | 0 <= k < |order| :: ordinals[order[k]] == k
    requires pos.Keys == Hashes(g) && forall k | 0 <= k < |g| :: pos[g[k].receiptHash] == ordinals[k]
    ensures forall x | x in g :: Linked(g, pos, x)
  {
    forall x | x in g ensures Linked(g, pos, x) {
      var i :| 0 <= i < |g| && g[i] == x;
      WalkLinks(g, order, ordinals, pos, i);
    }
  }

  lemma WalkIsInjective(g: seq<ExportReceipt>, order: seq<nat>, ordinals: seq<int>, pos: map<string, nat>)
    requires |g| == |order| == |ordinals|
    requires forall i | 0 <= i < |order| :: 0 <= ordinals[i] < |order| && order[ordinals[i]] == i
    requires pos.Keys == Hashes(g) && forall k | 0 <= k < |g| :: pos[g[k].receiptHash] == ordinals[k]
    ensures forall h, k | h in pos && k in pos && pos[h] == pos[k] :: h == k
  {
    forall h, k | h in pos && k in pos && pos[h] == pos[k] ensures h == k {
      var x :| x in g && x.receiptHash == h;
      var y :| y in g && y.receiptHash == k;
      var i :| 0 <= i < |g| && g[i] == x;
      var j :| 0 <= j < |g| && g[j] == y;
      assert order[ordinals[i]] == i && order[ordinals[j]] == j;
    }
  }

  lemma WalkLinks(g: seq<ExportReceipt>, order: seq<nat>, ordinals: seq<int>, pos: map<string, nat>, i: nat)
    requires |g| == |order| == |ordinals| && Walked(g, order) && i < |g|
    requires forall i | 0 <= i < |order| :: 0 <= ordinals[i] < |order| && order[ordinals[i]] == i
    requires forall k | 0 <= k < |order| :: ordinals[order[k]] == k
    requires pos.Keys == Hashes(g) && forall k | 0 <= k < |g| :: pos[g[k].receiptHash] == ordinals[k]
    ensures Linked(g, pos, g[i])
  {
    var k := ordinals[i];
    if k > 0 {
      assert ordinals[order[k - 1]] == k - 1;
    }
  }

  /** An injective order of n positions reaches each of them. */
  lemma OrderCovers(order: seq<nat>, ordinals: seq<int>)
    requires |order| == |ordinals| && forall k | 0 <= k < |order| :: order[k] < |order| && ordinals[order[k]] == k
    ensures forall i | 0 <= i < |order| :: 0 <= ordinals[i] < |order| && order[ordinals[i]] == i
  {
    var asInts := seq(|order|, k requires 0 <= k < |order| => order[k] as int);
    forall i, j | 0 <= i < j < |asInts| ensures asInts[i] != asInts[j] {
      assert ordinals[order[i]] == i && ordinals[order[j]] == j;
    }
    CompleteIff(asInts);
    forall i | 0 <= i < |order| ensures 0 <= ordinals[i] < |order| && order[ordinals[i]] == i {
      assert i in asInts;
      var k :| 0 <= k < |asInts| && asInts[k] == i;
    }
  }

  predicate OnlyRoot(g: seq<ExportReceipt>, r: nat) {
    r < |g| && forall i | 0 <= i < |g| :: Root(g, g[i]) <==> i == r
  }

  /** A chain has exactly one root. */
  lemma OneRoot(g: seq<ExportReceipt>, pos: map<string, nat>) returns (r: nat)
    requires ChainNumbering(g, pos) && g != []
    ensures OnlyRoot(g, r)
  {
    r := PositionTaken(g, pos, 0);
    DistinctHashesIff(g);
    forall i | 0 <= i < |g| ensures Root(g, g[i]) <==> i == r {
      assert Linked(g, pos, g[i]) && Linked(g, pos, g[r]);
    }
  }

  /** The one numbering of a group that is a chain. */
  ghost function ChainPositions(g: seq<ExportReceipt>): (positions: Option<map<string, nat>>)
    ensures positions.Some? <==> IsChain(g)
    ensures positions.Some? ==> ChainNumbering(g, positions.value)
  {
    if IsChain(g) then
      var pos :| ChainNumbering(g, pos);
      Some(pos)
    else None
  }

  /** The chain positions of a group, in group order; None when the links leave any doubt. */
  ghost function DerivedOrdinals(g: seq<ExportReceipt>): Option<seq<int>> {
    match ChainPositions(g)
    case None => None
    case Some(pos) => Some(OrdinalsUnder(g, pos))
  }

  lemma DerivedUnder(g: seq<ExportReceipt>, pos: map<string, nat>)
    requires g != [] && ChainNumbering(g, pos)
    ensures ChainPositions(g) == Some(pos) && DerivedOrdinals(g) == Some(OrdinalsUnder(g, pos))
  {
    NumberingIsUnique(g, ChainPositions(g).value, pos);
  }

  method HasDuplicateHash(g: seq<ExportReceipt>) returns (duplicate: bool)
    ensures duplicate <==> |Hashes(g)| != |g|
  {
    DistinctHashesIff(g);
    var byHash: map<string, nat> := map[];
    for i := 0 to |g|
      invariant forall h :: h in byHash <==> exists k | 0 <= k < i :: g[k].receiptHash == h
      invariant forall j, k | 0 <= j < k < i :: g[j].receiptHash != g[k].receiptHash
    {
      if g[i].receiptHash in byHash {
        return true;
      }
      byHash := byHash[g[i].receiptHash := i];
    }
    duplicate := false;
  }

  /** The single root of the group; None when there is none or more than one. */
  method SingleRoot(g: seq<ExportReceipt>) returns (root: Option<nat>)
    ensures root.Some? ==> OnlyRoot(g, root.value)
    ensures root.None? ==> forall r | 0 <= r < |g| :: !OnlyRoot(g, r)
  {
    var hashes := set x | x in g :: x.receiptHash;
    var roots: seq<nat> := [];
    for i := 0 to |g|
      invariant forall k | 0 <= k < |roots| :: roots[k] < i && Root(g, g[roots[k]])
      invariant forall k, l | 0 <= k < l < |roots| :: roots[k] < roots[l]
      invariant forall k | 0 <= k < i && Root(g, g[k]) :: k in roots
    {
      var prev := g[i].receipt.previousReceiptHash;
      if prev == "" || prev !in hashes {
        roots := roots + [i];
      }
    }
    if |roots| != 1 {
      forall r | 0 <= r < |g| ensures !OnlyRoot(g, r) {
        if |roots| == 0 {
          assert !Root(g, g[r]);
        } else {
          assert roots[0] != roots[1] && Root(g, g[roots[0]]) && Root(g, g[roots[1]]);
        }
      }
      return None;
    }
    root := Some(roots[0]);
  }

  datatype Successor = Fork | Gap | Next(at: nat)

  /** The receipt that links to a hash: none, one, or more than one. */
  method FindSuccessor(g: seq<ExportReceipt>, current: string) returns (found: Successor)
    ensures found.Fork? ==> exists i, j | 0 <= i < j < |g| :: Prev(g[i]) == current && Prev(g[j]) == current
    ensures found.Gap? ==> forall i | 0 <= i < |g| :: Prev(g[i]) != current
    ensures found.Next? ==> found.at < |g| && forall i | 0 <= i < |g| :: Prev(g[i]) == current <==> i == found.at
  {
    var next := -1;
    for i := 0 to |g|
      invariant -1 <= next < i
      invariant forall k | 0 <= k < i :: Prev(g[k]) == current <==> k == next
    {
      if g[i].receipt.previousReceiptHash != current {
        continue;
      }
      if next != -1 {
        assert Prev(g[next]) == current;
        return Fork;
      }
      next := i;
    }
    found := if next == -1 then Gap else Next(next);
  }

  lemma NoRootIsNoChain(g: seq<ExportReceipt>)
    requires forall r | 0 <= r < |g| :: !OnlyRoot(g, r)
    ensures !IsChain(g)
  {
    if IsChain(g) {
      var pos :| ChainNumbering(g, pos);
      var r := OneRoot(g, pos);
    }
  }

  /** When the walk cannot go on to a new receipt, the group is not a chain. */
  lemma StuckWalkIsNoChain(g: seq<ExportReceipt>, order: seq<nat>)
    requires Walked(g, order) && |order| < |g|
    requires forall next | 0 <= next < |g| && next !in order ::
      !(forall i | 0 <= i < |g| && Prev(g[i]) == g[order[|order| - 1]].receiptHash :: i == next) ||
      Prev(g[next]) != g[order[|order| - 1]].receiptHash
    ensures !IsChain(g)
  {
    if IsChain(g) {
      var pos :| ChainNumbering(g, pos);
      var next := WalkContinues(g, order, pos);
    }
  }

  /** `deriveReceiptChainOrdinals`: the positions of the one chain that the links form, and nothing for any
      group that is not one chain. */
  method DeriveReceiptChainOrdinals(g: seq<ExportReceipt>) returns (derived: Option<seq<int>>)
    ensures derived == DerivedOrdinals(g)
  {
    var n := |g|;
    if n == 0 {
      return None;
    }
    var duplicate := HasDuplicateHash(g);
    if duplicate {
      return None;
    }
    var root := SingleRoot(g);
    if root.None? {
      NoRootIsNoChain(g);
      return None;
    }
    derived := NumberFrom(g, root.value);
  }

  /** Numbers the receipts from the root along the links. */
  method NumberFrom(g: seq<ExportReceipt>, root: nat) returns (derived: Option<seq<int>>)
    requires |Hashes(g)| == |g| && OnlyRoot(g, root)
    ensures derived == DerivedOrdinals(g)
  {
    var n := |g|;
    var ordinals := seq(n, k => -1);
    ordinals := ordinals[root := 0];
    var current := g[root].receiptHash;
    ghost var order: seq<nat> := [root];
    for position := 1 to n
      invariant |order| == position && Numbered(g, order, ordinals) && order[0] == root
      invariant current == g[order[position - 1]].receiptHash
    {
      var found := FindSuccessor(g, current);
      if !found.Next? || ordinals[found.at] != -1 {
        StuckWalkIsNoChain(g, order);
        return None;
      }
      NumberingGrows(g, order, ordinals, found.at);
      ordinals := ordinals[found.at := position];
      current := g[found.at].receiptHash;
      order := order + [found.at];
    }
    ghost var pos := CoveringWalkNumbers(g, order, ordinals);
    DerivedUnder(g, pos);
    derived := Some(ordinals);
  }

  /** The receipts of the walk carry their positions, and no other receipt carries one. */
  ghost predicate Numbered(g: seq<ExportReceipt>, order: seq<nat>, ordinals: seq<int>) {
    && Walked(g, order) && |ordinals| == |g|
    && (forall k | 0 <= k < |order| :: ordinals[order[k]] == k)
    && (forall i | 0 <= i < |ordinals| :: ordinals[i] != -1 ==> i in order)
  }

  lemma NumberingGrows(g: seq<ExportReceipt>, order: seq<nat>, ordinals: seq<int>, next: nat)
    requires Numbered(g, order, ordinals) && OnlyRoot(g, order[0])
    requires next < |g| && ordinals[next] == -1 && Prev(g[next]) == g[order[|order| - 1]].receiptHash
    ensures Numbered(g, order + [next], ordinals[next := |order|])
  {
    forall k | 0 <= k < |order| ensures order[k] != next {
      assert ordinals[order[k]] == k;
    }
    NextIsNoRoot(g, order, next);
  }

  /** A new receipt that links to the walk's end is not a root: the only root is already placed. */
  lemma NextIsNoRoot(g: seq<ExportReceipt>, order: seq<nat>, next: nat)
    requires Walked(g, order) && next < |g| && next !in order
    requires Prev(g[next]) == g[order[|order| - 1]].receiptHash
    requires OnlyRoot(g, order[0])
    ensures !Root(g, g[next])
  {
    assert order[0] in order;
  }
}
