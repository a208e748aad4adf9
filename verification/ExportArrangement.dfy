/** Chain reconstruction in the words of the links: a group has derived ordinals exactly when its receipts can be laid
    out as one chain, and the ordinals are the places in that layout. */
module ExportArrangement {
  import opened Records
  import opened ExportOrdinals
  import opened Lists

  predicate DistinctHashes(layout: seq<ExportReceipt>) {
    forall i, j | 0 <= i < j < |layout| :: layout[i].receiptHash != layout[j].receiptHash
  }

  /** The receipt at k links to the one right before it. */
  predicate LinksBack(layout: seq<ExportReceipt>, k: int) {
    0 < k < |layout| && layout[k].receipt.previousReceiptHash == layout[k - 1].receiptHash != ""
  }

  /** The receipts laid out as a chain: no hash twice, the first one linked to nothing in the group, every other one to
      the receipt right before it. */
  ghost predicate Arranges(g: seq<ExportReceipt>, layout: seq<ExportReceipt>) {
    && layout != [] && multiset(layout) == multiset(g) && DistinctHashes(layout)
    && (layout[0].receipt.previousReceiptHash == "" ||
        forall x | x in g :: x.receiptHash != layout[0].receipt.previousReceiptHash)
    && (forall k | 0 < k < |layout| :: LinksBack(layout, k))
  }

  /** The place of a hash in a layout. */
  function PlaceOf(layout: seq<ExportReceipt>, hash: string): (k: nat)
    ensures k < |layout| ==> layout[k].receiptHash == hash
    ensures k >= |layout| ==> forall i | 0 <= i < |layout| :: layout[i].receiptHash != hash
  {
    if layout == [] then 0
    else if layout[|layout| - 1].receiptHash == hash then |layout| - 1
    else
      var k := PlaceOf(layout[..|layout| - 1], hash);
      if k < |layout| - 1 then k else |layout|
  }

  function PlacesIn(layout: seq<ExportReceipt>): map<string, nat> {
    map h | h in Hashes(layout) :: PlaceOf(layout, h)
  }

  lemma PlacesAreThose(layout: seq<ExportReceipt>, i: nat)
    requires DistinctHashes(layout) && i < |layout|
    ensures layout[i].receiptHash in PlacesIn(layout) && PlacesIn(layout)[layout[i].receiptHash] == i
  {
    assert layout[i] in layout;
    assert layout[i].receiptHash in Hashes(layout);
    var k := PlaceOf(layout, layout[i].receiptHash);
  }

  lemma SameHashes(g: seq<ExportReceipt>, layout: seq<ExportReceipt>)
    requires multiset(layout) == multiset(g)
    ensures |layout| == |g| && Hashes(layout) == Hashes(g) && forall x :: x in layout <==> x in g
  {
    SameMembers(layout, g);
  }

  lemma LayoutNumbers(g: seq<ExportReceipt>, layout: seq<ExportReceipt>)
    requires Arranges(g, layout)
    ensures ChainNumbering(g, PlacesIn(layout))
  {
    hide Hashes, PlacesIn, Linked, DistinctHashes, LinksBack;
    var pos := PlacesIn(layout);
    SameHashes(g, layout);
    HashesAreKeys(layout);
    forall x | x in g ensures Linked(g, pos, x) {
      var i :| 0 <= i < |layout| && layout[i] == x;
      PlaceIsLinked(g, layout, i);
    }
    forall h, k | h in pos && k in pos && pos[h] == pos[k] ensures h == k {
      PlaceHolds(layout, h);
      PlaceHolds(layout, k);
    }
  }

  lemma HashesAreKeys(layout: seq<ExportReceipt>)
    requires DistinctHashes(layout)
    ensures PlacesIn(layout).Keys == Hashes(layout) && |Hashes(layout)| == |layout|
  {
    DistinctHashesIff(layout);
  }

  lemma PlaceHolds(layout: seq<ExportReceipt>, h: string)
    requires h in PlacesIn(layout)
    ensures PlacesIn(layout)[h] < |layout| && layout[PlacesIn(layout)[h]].receiptHash == h
  {
    var x :| x in layout && x.receiptHash == h;
    var i :| 0 <= i < |layout| && layout[i] == x;
  }

  lemma PlaceIsLinked(g: seq<ExportReceipt>, layout: seq<ExportReceipt>, i: nat)
    requires Arranges(g, layout) && i < |layout| == |g|
    requires PlacesIn(layout).Keys == Hashes(g) && layout[i] in g && forall x :: x in layout <==> x in g
    ensures Linked(g, PlacesIn(layout), layout[i])
  {
    hide PlacesIn, DistinctHashes;
    PlacesAreThose(layout, i);
    if i > 0 {
      assert LinksBack(layout, i);
      assert layout[i - 1] in g;
      assert layout[i - 1].receiptHash in Hashes(g);
      PlacesAreThose(layout, i - 1);
    }
  }

  lemma NumberingLaysOut(g: seq<ExportReceipt>, pos: map<string, nat>) returns (layout: seq<ExportReceipt>)
    requires g != [] && ChainNumbering(g, pos)
    ensures Arranges(g, layout)
  {
    hide Linked, Hashes, LinksBack;
    layout := LayoutTo(g, pos, |g|);
    LayoutHoldsAll(g, pos, layout);
    forall k | 0 < k < |layout| ensures LinksBack(layout, k) {
      NumberedLinksBack(g, pos, layout[k - 1], layout[k]);
      assert LinksBack(layout, k) by { LinksBackIs(layout, k); }
    }
    FirstIsRoot(g, pos, layout[0]);
  }

  lemma LinksBackIs(layout: seq<ExportReceipt>, k: int)
    requires 0 < k < |layout| && layout[k].receipt.previousReceiptHash == layout[k - 1].receiptHash != ""
    ensures LinksBack(layout, k)
  {
  }

  lemma NumberedLinksBack(g: seq<ExportReceipt>, pos: map<string, nat>, x: ExportReceipt, y: ExportReceipt)
    requires ChainNumbering(g, pos) && x in g && y in g && pos[y.receiptHash] == pos[x.receiptHash] + 1
    ensures y.receipt.previousReceiptHash == x.receiptHash != ""
  {
    assert Linked(g, pos, y);
  }

  lemma FirstIsRoot(g: seq<ExportReceipt>, pos: map<string, nat>, x: ExportReceipt)
    requires ChainNumbering(g, pos) && x in g && pos[x.receiptHash] == 0
    ensures x.receipt.previousReceiptHash == "" || forall y | y in g :: y.receiptHash != x.receipt.previousReceiptHash
  {
    assert Linked(g, pos, x);
  }

  /** The receipts at the first n places. */
  lemma {:induction false} LayoutTo(g: seq<ExportReceipt>, pos: map<string, nat>, n: nat) returns (layout: seq<ExportReceipt>)
    requires ChainNumbering(g, pos) && n <= |g|
    ensures |layout| == n && forall k | 0 <= k < n :: layout[k] in g && pos[layout[k].receiptHash] == k
  {
    if n == 0 {
      layout := [];
    } else {
      layout := LayoutTo(g, pos, n - 1);
      var k := PositionTaken(g, pos, n - 1);
      layout := layout + [g[k]];
    }
  }

  lemma LayoutHoldsAll(g: seq<ExportReceipt>, pos: map<string, nat>, layout: seq<ExportReceipt>)
    requires ChainNumbering(g, pos) && |layout| == |g|
    requires forall k | 0 <= k < |layout| :: layout[k] in g && pos[layout[k].receiptHash] == k
    ensures multiset(layout) == multiset(g) && DistinctHashes(layout)
  {
    DistinctHashesIff(g);
    forall x | x in g ensures x in layout {
      assert Linked(g, pos, x);
      var k := pos[x.receiptHash];
      OneReceiptPerHash(g, x, layout[k]);
    }
    SameElementsSameLength(g, layout);
  }

  lemma OneReceiptPerHash(g: seq<ExportReceipt>, x: ExportReceipt, y: ExportReceipt)
    requires forall i, j | 0 <= i < j < |g| :: g[i].receiptHash != g[j].receiptHash
    requires x in g && y in g && x.receiptHash == y.receiptHash
    ensures x == y
  {
    var i :| 0 <= i < |g| && g[i] == x;
    var j :| 0 <= j < |g| && g[j] == y;
  }

  /** A group has derived ordinals exactly when it can be laid out as one chain; there is one layout at most, and each
      receipt's ordinal is its place there. */
  lemma OrdinalsArePlaces(g: seq<ExportReceipt>, layout: seq<ExportReceipt>)
    requires g != []
    ensures DerivedOrdinals(g).Some? <==> exists other :: Arranges(g, other)
    ensures Arranges(g, layout) ==>
              && DerivedOrdinals(g).Some? && |DerivedOrdinals(g).value| == |g|
              && forall i | 0 <= i < |g| :: 0 <= DerivedOrdinals(g).value[i] < |layout| && layout[DerivedOrdinals(g).value[i]] == g[i]
  {
    hide Arranges, ChainNumbering;
    if DerivedOrdinals(g).Some? {
      var other := NumberingLaysOut(g, ChainPositions(g).value);
    }
    if other :| Arranges(g, other) {
      LayoutNumbers(g, other);
    }
    if Arranges(g, layout) {
      LayoutNumbers(g, layout);
      PlacesAreOrdinals(g, layout);
    }
  }

  lemma PlacesAreOrdinals(g: seq<ExportReceipt>, layout: seq<ExportReceipt>)
    requires g != [] && Arranges(g, layout) && ChainNumbering(g, PlacesIn(layout))
    ensures DerivedOrdinals(g).Some? && |DerivedOrdinals(g).value| == |g|
    ensures forall i | 0 <= i < |g| :: 0 <= DerivedOrdinals(g).value[i] < |layout| && layout[DerivedOrdinals(g).value[i]] == g[i]
  {
    hide PlacesIn, ChainNumbering, DistinctHashes, LinksBack;
    DerivedUnder(g, PlacesIn(layout));
    SameHashes(g, layout);
    forall i | 0 <= i < |g| ensures 0 <= DerivedOrdinals(g).value[i] < |layout| && layout[DerivedOrdinals(g).value[i]] == g[i] {
      assert g[i] in layout;
      var k :| 0 <= k < |layout| && layout[k] == g[i];
      PlacesAreThose(layout, k);
    }
  }
}
