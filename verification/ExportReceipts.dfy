/** Fixing the chain ordinals of the exported receipts before they are sorted: a function of the rows that
    does not depend on their order, and that a second pass does not change. */
module ExportReceipts {
  import opened Text
  import opened Records
  import opened ExportOrdinals
  import opened Sorting
  import opened Lists

  function SubjectOf(x: ExportReceipt): string {
    x.receipt.subjectId
  }

  /** The positions of a subject's receipts, in array order. */
  function Indices(rs: seq<ExportReceipt>, subject: string): (idx: seq<nat>)
    ensures forall k | 0 <= k < |idx| :: idx[k] < |rs|
  {
    if rs == [] then []
    else
      var earlier := Indices(rs[..|rs| - 1], subject);
      if SubjectOf(rs[|rs| - 1]) == subject then earlier + [|rs| - 1] else earlier
  }

  function GroupOf(rs: seq<ExportReceipt>, subject: string): seq<ExportReceipt> {
    var idx := Indices(rs, subject);
    seq(|idx|, k requires 0 <= k < |idx| => rs[idx[k]])
  }

  function Provided(g: seq<ExportReceipt>): seq<int> {
    seq(|g|, k requires 0 <= k < |g| => g[k].chainOrdinal)
  }

  /** The ordinal a receipt gets inside its group: its own when the group's are complete, its position when
      the links form one chain, and zero otherwise. */
  ghost function Resolved(g: seq<ExportReceipt>, x: ExportReceipt): int {
    if Complete(Provided(g)) then x.chainOrdinal
    else match ChainPositions(g)
         case None => 0
         case Some(pos) => if x.receiptHash in pos then pos[x.receiptHash] else 0
  }

  ghost function Settled(rs: seq<ExportReceipt>, x: ExportReceipt): ExportReceipt {
    x.(chainOrdinal := Resolved(GroupOf(rs, SubjectOf(x)), x))
  }

  ghost function Established(rs: seq<ExportReceipt>): seq<ExportReceipt> {
    seq(|rs|, i requires 0 <= i < |rs| => Settled(rs, rs[i]))
  }

  // ------------------------------------------------------------------ grouping

  lemma IndicesGrow(rs: seq<ExportReceipt>, x: ExportReceipt, subject: string)
    ensures Indices(rs + [x], subject) == if SubjectOf(x) == subject then Indices(rs, subject) + [|rs|] else Indices(rs, subject)
  {
    assert (rs + [x])[..|rs|] == rs;
  }

  /** The indices of a subject are exactly the positions where it stands, in increasing order. */
  lemma {:induction false} IndicesAreExact(rs: seq<ExportReceipt>, subject: string)
    ensures
      var idx := Indices(rs, subject);
      && (forall i | 0 <= i < |rs| :: i in idx <==> SubjectOf(rs[i]) == subject)
      && (forall k, l | 0 <= k < l < |idx| :: idx[k] < idx[l])
  {
    if rs != [] {
      var before := rs[..|rs| - 1];
      IndicesAreExact(before, subject);
      assert forall i | 0 <= i < |before| :: rs[i] == before[i];
    }
  }

  lemma {:induction false} GroupCounts(rs: seq<ExportReceipt>, subject: string, x: ExportReceipt)
    ensures multiset(GroupOf(rs, subject))[x] == if SubjectOf(x) == subject then multiset(rs)[x] else 0
  {
    if rs != [] {
      var before, last := rs[..|rs| - 1], rs[|rs| - 1];
      GroupCounts(before, subject, x);
      assert rs == before + [last];
      var idx, earlier := Indices(rs, subject), Indices(before, subject);
      if SubjectOf(last) == subject {
        assert GroupOf(rs, subject) == GroupOf(before, subject) + [last];
      } else {
        assert GroupOf(rs, subject) == GroupOf(before, subject);
      }
    }
  }

  /** The group of a subject does not depend on the order of the rows, but for its own order. */
  lemma GroupsAgree(a: seq<ExportReceipt>, b: seq<ExportReceipt>, subject: string)
    requires multiset(a) == multiset(b)
    ensures multiset(GroupOf(a, subject)) == multiset(GroupOf(b, subject))
  {
    forall x ensures multiset(GroupOf(a, subject))[x] == multiset(GroupOf(b, subject))[x] {
      GroupCounts(a, subject, x);
      GroupCounts(b, subject, x);
    }
  }

  // --------------------------------------------------------- order-independence

  lemma ProvidedMembers(g: seq<ExportReceipt>, v: int)
    ensures v in Provided(g) <==> exists x | x in g :: x.chainOrdinal == v
  {
    if v in Provided(g) {
      var k :| 0 <= k < |g| && Provided(g)[k] == v;
      assert g[k] in g;
    }
    if x :| x in g && x.chainOrdinal == v {
      var k :| 0 <= k < |g| && g[k] == x;
      assert Provided(g)[k] == v;
    }
  }

  lemma CompletenessAgrees(g: seq<ExportReceipt>, h: seq<ExportReceipt>)
    requires multiset(g) == multiset(h)
    ensures Complete(Provided(g)) <==> Complete(Provided(h))
  {
    SameMembers(g, h);
    forall v ensures v in Provided(g) <==> v in Provided(h) {
      ProvidedMembers(g, v);
      ProvidedMembers(h, v);
    }
  }

  lemma NumberingCarriesOver(g: seq<ExportReceipt>, h: seq<ExportReceipt>, pos: map<string, nat>)
    requires |g| == |h| && (forall x :: x in g <==> x in h) && ChainNumbering(g, pos)
    ensures ChainNumbering(h, pos)
  {
    assert Hashes(g) == Hashes(h);
    forall x | x in h ensures Linked(h, pos, x) {
      assert Linked(g, pos, x);
    }
  }

  lemma PositionsAgree(g: seq<ExportReceipt>, h: seq<ExportReceipt>)
    requires multiset(g) == multiset(h)
    ensures ChainPositions(g) == ChainPositions(h)
  {
    SameMembers(g, h);
    if IsChain(g) {
      NumberingCarriesOver(g, h, ChainPositions(g).value);
      DerivedUnder(h, ChainPositions(g).value);
    } else if IsChain(h) {
      NumberingCarriesOver(h, g, ChainPositions(h).value);
      assert false;
    }
  }

  /** What a receipt gets depends on the rows only, not on their order. */
  lemma SettlingAgrees(a: seq<ExportReceipt>, b: seq<ExportReceipt>, x: ExportReceipt)
    requires multiset(a) == multiset(b)
    ensures Settled(a, x) == Settled(b, x)
  {
    GroupsAgree(a, b, SubjectOf(x));
    CompletenessAgrees(GroupOf(a, SubjectOf(x)), GroupOf(b, SubjectOf(x)));
    PositionsAgree(GroupOf(a, SubjectOf(x)), GroupOf(b, SubjectOf(x)));
  }

  ghost function MapRows<T(!new), U>(s: seq<T>, f: T -> U): seq<U> {
    seq(|s|, i requires 0 <= i < |s| => f(s[i]))
  }

  lemma MapWithout<T(!new), U>(s: seq<T>, k: nat, f: T -> U)
    requires k < |s|
    ensures multiset(s[..k] + s[k + 1..]) == multiset(s) - multiset{s[k]}
    ensures multiset(MapRows(s, f)) == multiset(MapRows(s[..k] + s[k + 1..], f)) + multiset{f(s[k])}
  {
    var front, back := s[..k], s[k + 1..];
    assert s == front + [s[k]] + back;
    assert MapRows(s, f) == MapRows(front, f) + [f(s[k])] + MapRows(back, f);
    assert MapRows(front + back, f) == MapRows(front, f) + MapRows(back, f);
  }

  lemma {:induction false} MappedMultisets<T(!new), U>(a: seq<T>, b: seq<T>, f: T -> U)
    requires multiset(a) == multiset(b)
    ensures multiset(MapRows(a, f)) == multiset(MapRows(b, f))
    decreases |a|
  {
    SameMembers(a, b);
    if a != [] {
      assert a[0] in a;
      var k :| 0 <= k < |b| && b[k] == a[0];
      var restA, restB := a[..0] + a[0 + 1..], b[..k] + b[k + 1..];
      MapWithout(a, 0, f);
      MapWithout(b, k, f);
      MappedMultisets(restA, restB, f);
    }
  }

  /** Establishing the ordinals of the same rows in another order gives the same rows. */
  lemma EstablishingAgrees(a: seq<ExportReceipt>, b: seq<ExportReceipt>)
    requires multiset(a) == multiset(b)
    ensures multiset(Established(a)) == multiset(Established(b))
  {
    var f := x => Settled(a, x);
    MappedMultisets(a, b, f);
    assert MapRows(a, f) == Established(a);
    forall i | 0 <= i < |b| ensures MapRows(b, f)[i] == Established(b)[i] {
      SettlingAgrees(a, b, b[i]);
    }
    assert MapRows(b, f) == Established(b);
  }

  // ---------------------------------------------------------------- idempotence

  lemma {:induction false} IndicesFollowSubjects(rs: seq<ExportReceipt>, ss: seq<ExportReceipt>, subject: string)
    requires |rs| == |ss| && forall i | 0 <= i < |rs| :: SubjectOf(rs[i]) == SubjectOf(ss[i])
    ensures Indices(rs, subject) == Indices(ss, subject)
  {
    if rs != [] {
      IndicesFollowSubjects(rs[..|rs| - 1], ss[..|ss| - 1], subject);
    }
  }

  /** The group after establishing is the group before, with its resolved ordinals. */
  ghost predicate ResolvedGroup(g: seq<ExportReceipt>, h: seq<ExportReceipt>) {
    |h| == |g| && forall k | 0 <= k < |g| :: h[k] == g[k].(chainOrdinal := Resolved(g, g[k]))
  }

  lemma EstablishedGroup(rs: seq<ExportReceipt>, subject: string)
    ensures ResolvedGroup(GroupOf(rs, subject), GroupOf(Established(rs), subject))
  {
    IndicesAreExact(rs, subject);
    IndicesFollowSubjects(rs, Established(rs), subject);
    var idx, g, h := Indices(rs, subject), GroupOf(rs, subject), GroupOf(Established(rs), subject);
    forall k | 0 <= k < |g| ensures h[k] == g[k].(chainOrdinal := Resolved(g, g[k])) {
      assert idx[k] in idx && h[k] == Settled(rs, rs[idx[k]]);
    }
  }

  predicate SameLinks(g: seq<ExportReceipt>, h: seq<ExportReceipt>) {
    |g| == |h| && forall k | 0 <= k < |g| :: h[k].receipt == g[k].receipt && h[k].receiptHash == g[k].receiptHash
  }

  lemma HashesOfLinks(g: seq<ExportReceipt>, h: seq<ExportReceipt>)
    requires SameLinks(g, h)
    ensures Hashes(g) <= Hashes(h)
  {
    forall x | x in g ensures x.receiptHash in Hashes(h) {
      var k :| 0 <= k < |g| && g[k] == x;
      assert h[k] in h;
    }
  }

  /** The links do not depend on the ordinals. */
  lemma NumberingIgnoresOrdinals(g: seq<ExportReceipt>, h: seq<ExportReceipt>, pos: map<string, nat>)
    requires SameLinks(g, h) && ChainNumbering(g, pos)
    ensures ChainNumbering(h, pos)
  {
    hide Linked, Hashes;
    HashesOfLinks(g, h);
    HashesOfLinks(h, g);
    assert Hashes(g) == Hashes(h);
    forall x | x in h ensures Linked(h, pos, x) {
      var k :| 0 <= k < |h| && h[k] == x;
      assert g[k] in g && Linked(g, pos, g[k]);
      LinkIgnoresOrdinal(g, h, pos, g[k], x);
    }
  }

  lemma LinkIgnoresOrdinal(g: seq<ExportReceipt>, h: seq<ExportReceipt>, pos: map<string, nat>, x: ExportReceipt, y: ExportReceipt)
    requires |g| == |h| && Hashes(g) == Hashes(h) == pos.Keys && x in g && y in h
    requires x.receipt == y.receipt && x.receiptHash == y.receiptHash && Linked(g, pos, x)
    ensures Linked(h, pos, y)
  {
  }

  /** Chain positions are complete ordinals. */
  lemma ResolvedChain(g: seq<ExportReceipt>, h: seq<ExportReceipt>)
    requires ResolvedGroup(g, h) && !Complete(Provided(g)) && IsChain(g)
    ensures Complete(Provided(h))
  {
    var pos := ChainPositions(g).value;
    NumberingIsComplete(g, pos);
    hide ChainNumbering, IsChain, Complete;
    forall k | 0 <= k < |g| ensures Provided(h)[k] == OrdinalsUnder(g, pos)[k] {
      assert g[k] in g;
    }
    assert Provided(h) == OrdinalsUnder(g, pos);
  }

  lemma NoChainStaysNoChain(g: seq<ExportReceipt>, h: seq<ExportReceipt>)
    requires SameLinks(g, h) && IsChain(h)
    ensures IsChain(g)
  {
    var pos :| ChainNumbering(h, pos);
    NumberingIgnoresOrdinals(h, g, pos);
  }

  lemma ResolvedOrdinals(g: seq<ExportReceipt>, h: seq<ExportReceipt>)
    requires ResolvedGroup(g, h)
    ensures Complete(Provided(g)) ==> h == g
    ensures !Complete(Provided(g)) && IsChain(g) ==> Complete(Provided(h))
    ensures !Complete(Provided(g)) && !IsChain(g) ==> !IsChain(h) && forall k | 0 <= k < |h| :: h[k].chainOrdinal == 0
  {
    hide IsChain, Complete, ChainNumbering, Provided;
    if !Complete(Provided(g)) && IsChain(g) {
      ResolvedChain(g, h);
    }
    if IsChain(h) && !IsChain(g) {
      NoChainStaysNoChain(g, h);
    }
  }

  /** A second pass keeps what the first one settled. */
  lemma SettledStays(rs: seq<ExportReceipt>, j: nat)
    requires j < |rs|
    ensures Settled(Established(rs), Established(rs)[j]) == Established(rs)[j]
  {
    var subject := SubjectOf(rs[j]);
    EstablishedGroup(rs, subject);
    ResolvedOrdinals(GroupOf(rs, subject), GroupOf(Established(rs), subject));
    var k := PlaceInGroup(rs, subject, j);
  }

  lemma EstablishingIsIdempotent(rs: seq<ExportReceipt>)
    ensures Established(Established(rs)) == Established(rs)
  {
    forall j | 0 <= j < |rs| ensures Established(Established(rs))[j] == Established(rs)[j] {
      SettledStays(rs, j);
    }
  }

  // -------------------------------------------------------------------- no ties

  /** The order of the receipts: subject, time, chain ordinal, and the hash at last. */
  function ReceiptKey(x: ExportReceipt): Key {
    [S(SubjectOf(x)), S(x.receipt.issuedAt), N(x.chainOrdinal), S(x.receiptHash)]
  }

  /** Every subject's receipts carry complete ordinals or form one chain. */
  ghost predicate Unambiguous(rs: seq<ExportReceipt>) {
    forall i | 0 <= i < |rs| ::
      Complete(Provided(GroupOf(rs, SubjectOf(rs[i])))) || IsChain(GroupOf(rs, SubjectOf(rs[i])))
  }

  lemma UnambiguousIsTieFree(rs: seq<ExportReceipt>)
    requires Unambiguous(rs)
    ensures TieFree(Established(rs), ReceiptKey)
  {
    var once := Established(rs);
    forall x, y | x in once && y in once && ReceiptKey(x) == ReceiptKey(y) ensures x == y {
      var i :| 0 <= i < |once| && once[i] == x;
      var j :| 0 <= j < |once| && once[j] == y;
      SameKeySameRow(rs, i, j);
    }
  }

  lemma PlaceInGroup(rs: seq<ExportReceipt>, subject: string, i: nat) returns (k: nat)
    requires i < |rs| && SubjectOf(rs[i]) == subject
    ensures k < |Indices(rs, subject)| && Indices(rs, subject)[k] == i
    ensures k < |GroupOf(Established(rs), subject)| && GroupOf(Established(rs), subject)[k] == Established(rs)[i]
  {
    IndicesAreExact(rs, subject);
    IndicesFollowSubjects(rs, Established(rs), subject);
    assert i in Indices(rs, subject);
    k :| 0 <= k < |Indices(rs, subject)| && Indices(rs, subject)[k] == i;
  }

  lemma SameKeySameRow(rs: seq<ExportReceipt>, i: nat, j: nat)
    requires Unambiguous(rs) && i < |rs| && j < |rs|
    requires ReceiptKey(Established(rs)[i]) == ReceiptKey(Established(rs)[j])
    ensures i == j
  {
    var once, subject := Established(rs), SubjectOf(rs[i]);
    KeyFields(once[i], once[j]);
    var k := PlaceInGroup(rs, subject, i);
    var l := PlaceInGroup(rs, subject, j);
    var h := GroupOf(once, subject);
    EstablishedGroupIsComplete(rs, subject, i);
    CompleteIff(Provided(h));
    assert Provided(h)[k] == Provided(h)[l];
  }

  lemma EstablishedGroupIsComplete(rs: seq<ExportReceipt>, subject: string, i: nat)
    requires Unambiguous(rs) && i < |rs| && SubjectOf(rs[i]) == subject
    ensures Complete(Provided(GroupOf(Established(rs), subject)))
  {
    EstablishedGroup(rs, subject);
    ResolvedOrdinals(GroupOf(rs, subject), GroupOf(Established(rs), subject));
  }

  lemma KeyFields(x: ExportReceipt, y: ExportReceipt)
    requires ReceiptKey(x) == ReceiptKey(y)
    ensures SubjectOf(x) == SubjectOf(y) && x.receipt.issuedAt == y.receipt.issuedAt
    ensures x.chainOrdinal == y.chainOrdinal && x.receiptHash == y.receiptHash
  {
    assert ReceiptKey(x)[0] == ReceiptKey(y)[0] && ReceiptKey(x)[1] == ReceiptKey(y)[1];
    assert ReceiptKey(x)[2] == ReceiptKey(y)[2] && ReceiptKey(x)[3] == ReceiptKey(y)[3];
  }

  // ----------------------------------------------------------- canonical receipts

  /** What canonicalizing the receipts may deliver. */
  ghost predicate CanonicalReceipts(rs: seq<ExportReceipt>, canonical: seq<ExportReceipt>) {
    SortedPermutation(Established(rs), canonical, ReceiptKey)
  }

  /** Unambiguous receipts canonicalize to one array, whatever order they come in. */
  lemma CanonicalReceiptsAreOrderFree(a: seq<ExportReceipt>, b: seq<ExportReceipt>, x: seq<ExportReceipt>, y: seq<ExportReceipt>)
    requires multiset(a) == multiset(b) && TieFree(Established(a), ReceiptKey)
    requires CanonicalReceipts(a, x) && CanonicalReceipts(b, y)
    ensures x == y
  {
    EstablishingAgrees(a, b);
    SameMembers(x, Established(a));
    SortIsDetermined(x, y, ReceiptKey);
  }

  /** Canonical receipts are already established. */
  lemma CanonicalIsEstablished(rs: seq<ExportReceipt>, x: seq<ExportReceipt>)
    requires CanonicalReceipts(rs, x)
    ensures Established(x) == x
  {
    var once := Established(rs);
    SameMembers(x, once);
    forall i | 0 <= i < |x| ensures Settled(x, x[i]) == x[i] {
      assert x[i] in once;
      var j :| 0 <= j < |once| && once[j] == x[i];
      SettledStays(rs, j);
      SettlingAgrees(once, x, x[i]);
    }
  }

  /** Canonicalizing canonical receipts again gives them back. */
  lemma CanonicalReceiptsAreStable(rs: seq<ExportReceipt>, x: seq<ExportReceipt>, y: seq<ExportReceipt>)
    requires TieFree(Established(rs), ReceiptKey) && CanonicalReceipts(rs, x) && CanonicalReceipts(x, y)
    ensures y == x
  {
    CanonicalIsEstablished(rs, x);
    SameMembers(x, Established(rs));
    SortIsDetermined(x, y, ReceiptKey);
  }

  // ---------------------------------------------------------------- chain order

  /** The subject's receipts form one chain that was issued in chain order, and ordinals that came complete
      are the chain positions. */
  ghost predicate IssuedInChainOrder(g: seq<ExportReceipt>, pos: map<string, nat>) {
    && ChainNumbering(g, pos)
    && (forall x, y | x in g && y in g && pos[x.receiptHash] < pos[y.receiptHash] ::
          LessEq(x.receipt.issuedAt, y.receipt.issuedAt))
    && (Complete(Provided(g)) ==> forall x | x in g :: x.chainOrdinal == pos[x.receiptHash])
  }

  lemma ResolvedIsPosition(g: seq<ExportReceipt>, pos: map<string, nat>, x: ExportReceipt)
    requires IssuedInChainOrder(g, pos) && x in g
    ensures Resolved(g, x) == pos[x.receiptHash]
  {
    DerivedUnder(g, pos);
  }

  /** A row that sorts before another of its subject was issued no later, and, at the same time, is not
      after it in the chain. */
  lemma KeyOrder(x: ExportReceipt, y: ExportReceipt)
    requires SubjectOf(x) == SubjectOf(y) && KeyLessEq(ReceiptKey(x), ReceiptKey(y))
    ensures LessEq(x.receipt.issuedAt, y.receipt.issuedAt)
    ensures x.receipt.issuedAt == y.receipt.issuedAt ==> x.chainOrdinal <= y.chainOrdinal
  {
    LessIrreflexive(SubjectOf(x));
    LessIrreflexive(x.receipt.issuedAt);
    var a, b := ReceiptKey(x), ReceiptKey(y);
    if a == b {
      KeyFields(x, y);
    } else {
      var restA, restB := [a[1], a[2], a[3]], [b[1], b[2], b[3]];
      assert a[1..] == restA && b[1..] == restB;
      assert KeyLess(restA, restB);
      if x.receipt.issuedAt == y.receipt.issuedAt {
        assert restA[1..] == [a[2], a[3]] && restB[1..] == [b[2], b[3]];
        assert KeyLess([a[2], a[3]], [b[2], b[3]]);
      }
    }
  }

  /** In the canonical array each such subject's receipts stand in chain order. */
  lemma CanonicalIsChainOrder(rs: seq<ExportReceipt>, canonical: seq<ExportReceipt>, subject: string, pos: map<string, nat>,
                              i: nat, j: nat)
    requires CanonicalReceipts(rs, canonical) && IssuedInChainOrder(GroupOf(rs, subject), pos)
    requires i < j < |canonical| && SubjectOf(canonical[i]) == subject && SubjectOf(canonical[j]) == subject
    ensures canonical[i].receiptHash in pos && canonical[j].receiptHash in pos
    ensures pos[canonical[i].receiptHash] <= pos[canonical[j].receiptHash]
  {
    var x := CanonicalOrigin(rs, canonical, subject, pos, i);
    var y := CanonicalOrigin(rs, canonical, subject, pos, j);
    assert KeyLessEq(ReceiptKey(canonical[i]), ReceiptKey(canonical[j]));
    KeyOrder(canonical[i], canonical[j]);
    if pos[y.receiptHash] < pos[x.receiptHash] {
      assert LessEq(y.receipt.issuedAt, x.receipt.issuedAt);
      if Less(x.receipt.issuedAt, y.receipt.issuedAt) {
        LessAsymmetric(x.receipt.issuedAt, y.receipt.issuedAt);
        LessIrreflexive(x.receipt.issuedAt);
      }
    }
  }

  /** The row that a canonical receipt comes from. */
  lemma CanonicalOrigin(rs: seq<ExportReceipt>, canonical: seq<ExportReceipt>, subject: string, pos: map<string, nat>, i: nat)
      returns (x: ExportReceipt)
    requires CanonicalReceipts(rs, canonical) && IssuedInChainOrder(GroupOf(rs, subject), pos)
    requires i < |canonical| && SubjectOf(canonical[i]) == subject
    ensures x in GroupOf(rs, subject) && x.receiptHash in pos
    ensures canonical[i] == x.(chainOrdinal := pos[x.receiptHash])
  {
    var once, g := Established(rs), GroupOf(rs, subject);
    SameMembers(canonical, once);
    assert canonical[i] in once;
    var j :| 0 <= j < |once| && once[j] == canonical[i];
    IndicesAreExact(rs, subject);
    assert j in Indices(rs, subject);
    var k :| 0 <= k < |Indices(rs, subject)| && Indices(rs, subject)[k] == j;
    x := rs[j];
    assert g[k] == x;
    ResolvedIsPosition(g, pos, x);
  }
}
