/** The period comparison in the words of the rows it compares: which chains stand in which list, with which entry,
    and in which order. */
module PeriodWords {
  import opened Text
  import opened Records
  import opened Sorting
  import opened Lists
  import opened StableSort
  import opened PeriodComparison
  import ExportOrder

  /** The row at i is the last one of its topic. */
  predicate LastOfTopic(rows: seq<Memory>, i: int) {
    0 <= i < |rows| && forall j | i < j < |rows| :: rows[j].topicKey != rows[i].topicKey
  }

  predicate LastItem(items: seq<PendingItem>, i: int) {
    0 <= i < |items| && forall j | i < j < |items| :: items[j].topicKey != items[i].topicKey
  }

  ghost predicate Last<T>(rows: seq<T>, topic: T -> string, k: string, i: int) {
    0 <= i < |rows| && topic(rows[i]) == k && forall j | i < j < |rows| :: topic(rows[j]) != k
  }

  /** The index holds the last row of each topic. */
  lemma {:induction false} IndexIsLast<T>(rows: seq<T>, topic: T -> string, k: string) returns (i: int)
    ensures k in IndexBy(rows, topic).at ==> Last(rows, topic, k, i) && IndexBy(rows, topic).at[k] == rows[i]
  {
    i := -1;
    if rows != [] {
      var front := rows[..|rows| - 1];
      if topic(rows[|rows| - 1]) == k {
        i := |rows| - 1;
      } else {
        i := IndexIsLast(front, topic, k);
        assert forall j | 0 <= j < |front| :: front[j] == rows[j];
      }
    }
  }

  /** And nothing else. */
  lemma LastIsIndexed<T>(rows: seq<T>, topic: T -> string, k: string, i: int)
    requires Last(rows, topic, k, i)
    ensures k in IndexBy(rows, topic).at && IndexBy(rows, topic).at[k] == rows[i]
  {
    hide IndexBy;
    IndexHolds(rows, topic);
    assert rows[i] in rows;
    var l := IndexIsLast(rows, topic, k);
    assert l == i;
  }

  lemma RowIsLast(rows: seq<Memory>, k: string)
    ensures k in IndexBy(rows, TopicKey()).at <==> exists i :: LastOfTopic(rows, i) && rows[i].topicKey == k
    ensures forall i | LastOfTopic(rows, i) && rows[i].topicKey == k ::
      k in IndexBy(rows, TopicKey()).at && IndexBy(rows, TopicKey()).at[k] == rows[i]
  {
    hide IndexBy;
    forall i: int ensures Last(rows, TopicKey(), k, i) <==> LastOfTopic(rows, i) && rows[i].topicKey == k {
      LastRowIs(rows, k, i);
    }
    var l := IndexIsLast(rows, TopicKey(), k);
    forall i | LastOfTopic(rows, i) && rows[i].topicKey == k
      ensures k in IndexBy(rows, TopicKey()).at && IndexBy(rows, TopicKey()).at[k] == rows[i]
    {
      LastIsIndexed(rows, TopicKey(), k, i);
    }
  }

  lemma LastRowIs(rows: seq<Memory>, k: string, i: int)
    ensures Last(rows, TopicKey(), k, i) <==> LastOfTopic(rows, i) && rows[i].topicKey == k
  {
    forall m ensures TopicKey()(m) == m.topicKey {
    }
  }

  /** Some row has the topic exactly when there is a last one. */
  lemma {:induction false} TopicHasLast(rows: seq<Memory>, k: string)
    ensures (exists m | m in rows :: m.topicKey == k) <==> exists i :: LastOfTopic(rows, i) && rows[i].topicKey == k
  {
    if rows != [] {
      var front, last := rows[..|rows| - 1], rows[|rows| - 1];
      TopicHasLast(front, k);
      LastSplit(rows);
      if last.topicKey == k {
        assert LastOfTopic(rows, |rows| - 1);
      } else if i :| LastOfTopic(front, i) && front[i].topicKey == k {
        assert LastOfTopic(rows, i) && rows[i] == front[i];
      }
      forall i | LastOfTopic(rows, i) && rows[i].topicKey == k ensures rows[i] in rows {
      }
    }
  }

  // ----------------------------------------------------------------------- changes

  /** The rows say different things: in content, the period aside, in status, in successor, or in references. */
  predicate SayDifferent(h: Digest, a: Memory, b: Memory) {
    var x := match a.scope case Institutional => a
                           case Company(o, c, r, _) => a.(scope := Company(o, c, r, ""));
    var y := match b.scope case Institutional => b
                           case Company(o, c, r, _) => b.(scope := Company(o, c, r, ""));
    || h(x) != h(y) || a.status != b.status || a.supersedesId != b.supersedesId
    || multiset(a.evidenceRefs) != multiset(b.evidenceRefs) || multiset(a.ruleRefs) != multiset(b.ruleRefs)
  }

  lemma DifferIff(h: Digest, a: Memory, b: Memory)
    ensures Differ(h, a, b) <==> SayDifferent(h, a, b)
  {
  }

  /** A change is listed exactly for the last rows of one topic of both periods when they say different things. */
  lemma ChangedInWords(h: Digest, from: seq<Memory>, to: seq<Memory>, c: ChainChange)
    ensures c in ChainsOf(h, from, to).changed <==>
            exists i, j ::
              && LastOfTopic(from, i) && LastOfTopic(to, j) && from[i].topicKey == to[j].topicKey == c.topicKey
              && SayDifferent(h, from[i], to[j])
              && c.fromId == from[i].id && c.toId == to[j].id && c.kind == to[j].kind && c.title == to[j].title
  {
    hide ChainsOf, IndexBy, Differ, SayDifferent, LastOfTopic;
    ChangedIff(h, from, to, c);
    RowIsLast(from, c.topicKey);
    RowIsLast(to, c.topicKey);
    forall a, b ensures Differ(h, a, b) <==> SayDifferent(h, a, b) {
      DifferIff(h, a, b);
    }
  }

  /** A status change is listed exactly for the last rows of one topic of both periods when their statuses differ. */
  lemma MovedInWords(from: seq<Memory>, to: seq<Memory>, s: StatusChange)
    ensures s in MovesOf(from, to) <==>
            exists i, j ::
              && LastOfTopic(from, i) && LastOfTopic(to, j) && from[i].topicKey == to[j].topicKey == s.topicKey
              && from[i].status == s.fromStatus && to[j].status == s.toStatus && s.fromStatus != s.toStatus
              && s.fromId == from[i].id && s.toId == to[j].id
  {
    hide MovesOf, IndexBy, LastOfTopic;
    MovedIff(from, to, s);
    RowIsLast(from, s.topicKey);
    RowIsLast(to, s.topicKey);
  }

  /** A chain is listed as new exactly when the later period has it and the earlier one does not; and as removed the
      other way round. */
  lemma NewAndRemovedInWords(h: Digest, from: seq<Memory>, to: seq<Memory>, c: ChainRef)
    ensures c in ChainsOf(h, from, to).added <==>
            (forall m | m in from :: m.topicKey != c.topicKey) &&
            exists j :: LastOfTopic(to, j) && c == ChainRef(to[j].topicKey, to[j].id, to[j].kind, to[j].status, to[j].title)
    ensures c in ChainsOf(h, from, to).removed <==>
            (forall m | m in to :: m.topicKey != c.topicKey) &&
            exists i :: LastOfTopic(from, i) && c == ChainRef(from[i].topicKey, from[i].id, from[i].kind, from[i].status, from[i].title)
  {
    hide Collect, StableSorted, IndexBy, OnlyHere, Sorted, LastOfTopic;
    var f, t := IndexBy(from, TopicKey()), IndexBy(to, TopicKey());
    OnlyHereIs(from, to, c);
    OnlyHereIs(to, from, c);
    SortKeepsRows(Collect(t.Values(), OnlyHere(f.at)), RefKey());
    SortKeepsRows(Collect(f.Values(), OnlyHere(t.at)), RefKey());
  }

  lemma OnlyHereIs(there: seq<Memory>, here: seq<Memory>, c: ChainRef)
    ensures c in Collect(IndexBy(here, TopicKey()).Values(), OnlyHere(IndexBy(there, TopicKey()).at)) <==>
            (forall m | m in there :: m.topicKey != c.topicKey) &&
            exists j :: LastOfTopic(here, j) && c == ChainRef(here[j].topicKey, here[j].id, here[j].kind, here[j].status, here[j].title)
  {
    hide Collect, IndexBy, LastOfTopic;
    var other, m := IndexBy(there, TopicKey()).at, IndexBy(here, TopicKey());
    Collected(m.Values(), OnlyHere(other));
    IndexIsWell(here, TopicKey());
    RowIsLast(here, c.topicKey);
    RowIsLast(there, c.topicKey);
    TopicHasLast(there, c.topicKey);
  }

  // ------------------------------------------------------------------------ counts

  /** The rows for which a property holds. */
  ghost function Places(rows: seq<Memory>, has: Memory -> bool): set<nat> {
    set i: nat | i < |rows| && has(rows[i])
  }

  lemma PlacesGrow(front: seq<Memory>, last: Memory, has: Memory -> bool)
    ensures |Places(front + [last], has)| == |Places(front, has)| + if has(last) then 1 else 0
  {
    var rows := front + [last];
    assert forall i | 0 <= i < |front| :: rows[i] == front[i];
    assert rows[|front|] == last;
    assert Places(rows, has) == Places(front, has) + if has(last) then {|front|} else {};
  }

  lemma {:induction false} CountsPlaces<K>(rows: seq<Memory>, f: Memory -> K, k: K, has: Memory -> bool)
    requires forall m :: has(m) == (f(m) == k)
    ensures multiset(Mapped(rows, f))[k] == |Places(rows, has)|
  {
    hide Mapped, Places;
    if rows == [] {
      NoPlaces(f, has);
    } else {
      var front, last := rows[..|rows| - 1], rows[|rows| - 1];
      CountsPlaces(front, f, k, has);
      LastSplit(rows);
      MappedAppend(front, last, f);
      PlacesGrow(front, last, has);
    }
  }

  lemma NoPlaces<K>(f: Memory -> K, has: Memory -> bool)
    ensures Mapped([], f) == [] && Places([], has) == {}
  {
  }

  /** The deltas count rows by kind and by status: how many more the later period has. */
  lemma DeltasInWords(h: Digest, from: seq<Memory>, to: seq<Memory>, fromPending: seq<PendingItem>, toPending: seq<PendingItem>,
                      c: Comparison, kind: string, status: Status)
    requires IsComparison(h, from, to, fromPending, toPending, c)
    ensures c.fromTotal == |from| && c.toTotal == |to| && c.delta == |to| - |from|
    ensures CountOf(c.byKindDelta, kind) == |Places(to, (m: Memory) => m.kind == kind)| - |Places(from, (m: Memory) => m.kind == kind)|
    ensures CountOf(c.byStatusDelta, status) ==
            |Places(to, (m: Memory) => m.status == status)| - |Places(from, (m: Memory) => m.status == status)|
  {
    hide Mapped, Places, ChainsOf, MovesOf, PendingOf;
    CountsPlaces(from, KindOf(), kind, (m: Memory) => m.kind == kind);
    CountsPlaces(to, KindOf(), kind, (m: Memory) => m.kind == kind);
    CountsPlaces(from, StatusOf(), status, (m: Memory) => m.status == status);
    CountsPlaces(to, StatusOf(), status, (m: Memory) => m.status == status);
  }

  // ----------------------------------------------------------------------- pending

  /** An item is listed as added exactly when it is the last of a topic that only the later list has. */
  lemma PendingInWords(from: seq<PendingItem>, to: seq<PendingItem>, id: string)
    ensures id in PendingOf(from, to).addedIds <==>
            exists j :: LastItem(to, j) && to[j].memoryId == id && forall i | i in from :: i.topicKey != to[j].topicKey
    ensures id in PendingOf(from, to).resolvedIds <==>
            exists i :: LastItem(from, i) && from[i].memoryId == id && forall j | j in to :: j.topicKey != from[i].topicKey
    ensures PendingOf(from, to).from == |from| && PendingOf(from, to).to == |to| && PendingOf(from, to).delta == |to| - |from|
  {
    hide Collect, StableSorted, IndexBy, Sorted, PendingOnlyHere, LastItem;
    var f, t := IndexBy(from, ItemTopic()), IndexBy(to, ItemTopic());
    PendingHereIs(from, to, id);
    PendingHereIs(to, from, id);
    SortKeepsRows(Collect(t.Values(), PendingOnlyHere(f.at)), TextKey());
    SortKeepsRows(Collect(f.Values(), PendingOnlyHere(t.at)), TextKey());
  }

  lemma ItemIsLast(items: seq<PendingItem>, k: string)
    ensures k in IndexBy(items, ItemTopic()).at <==> exists i :: LastItem(items, i) && items[i].topicKey == k
    ensures forall i | LastItem(items, i) && items[i].topicKey == k ::
      k in IndexBy(items, ItemTopic()).at && IndexBy(items, ItemTopic()).at[k] == items[i]
    ensures k in IndexBy(items, ItemTopic()).at <==> exists m | m in items :: m.topicKey == k
  {
    hide IndexBy;
    forall m ensures ItemTopic()(m) == m.topicKey {
    }
    var l := IndexIsLast(items, ItemTopic(), k);
    assert k in IndexBy(items, ItemTopic()).at ==> LastItem(items, l) && items[l] in items;
    IndexHolds(items, ItemTopic());
    forall i | LastItem(items, i) && items[i].topicKey == k
      ensures k in IndexBy(items, ItemTopic()).at && IndexBy(items, ItemTopic()).at[k] == items[i]
    {
      LastIsIndexed(items, ItemTopic(), k, i);
    }
    forall m | m in items && m.topicKey == k ensures k in IndexBy(items, ItemTopic()).at {
      assert ItemTopic()(m) == k;
    }
  }

  lemma PendingHereIs(there: seq<PendingItem>, here: seq<PendingItem>, id: string)
    ensures id in Collect(IndexBy(here, ItemTopic()).Values(), PendingOnlyHere(IndexBy(there, ItemTopic()).at)) <==>
            exists j :: LastItem(here, j) && here[j].memoryId == id && forall i | i in there :: i.topicKey != here[j].topicKey
  {
    hide Collect, IndexBy, OnePerTopic;
    var other, m := IndexBy(there, ItemTopic()).at, IndexBy(here, ItemTopic());
    Collected(m.Values(), PendingOnlyHere(other));
    IndexIsWell(here, ItemTopic());
    forall k: string ensures k in other <==> exists i | i in there :: i.topicKey == k {
      ItemIsLast(there, k);
    }
    forall j | LastItem(here, j) ensures here[j].topicKey in m.at && m.at[here[j].topicKey] == here[j] {
      ItemIsLast(here, here[j].topicKey);
    }
    if x :| x in m.Values() && PendingOnlyHere(other)(x) == Some(id) {
      assert ItemTopic()(x) in m.at && m.at[ItemTopic()(x)] == x;
      ItemIsLast(here, x.topicKey);
    }
    if j :| LastItem(here, j) && here[j].memoryId == id && forall i | i in there :: i.topicKey != here[j].topicKey {
      assert here[j] in m.Values() && PendingOnlyHere(other)(here[j]) == Some(id);
    }
  }

  // ------------------------------------------------------------------------- order

  /** Every list stands by topic, then by the ids it names; the pending ids stand in order. */
  lemma ListsAreInOrder(h: Digest, from: seq<Memory>, to: seq<Memory>, fromPending: seq<PendingItem>, toPending: seq<PendingItem>,
                        i: nat, j: nat)
    requires i < j
    ensures
      var c, moves, d := ChainsOf(h, from, to), MovesOf(from, to), PendingOf(fromPending, toPending);
      && (j < |c.added| ==> ExportOrder.First(c.added[i].topicKey, c.added[j].topicKey, LessEq(c.added[i].memoryId, c.added[j].memoryId)))
      && (j < |c.removed| ==>
            ExportOrder.First(c.removed[i].topicKey, c.removed[j].topicKey, LessEq(c.removed[i].memoryId, c.removed[j].memoryId)))
      && (j < |c.changed| ==> LessEq(c.changed[i].topicKey, c.changed[j].topicKey))
      && (j < |moves| ==> LessEq(moves[i].topicKey, moves[j].topicKey))
      && (j < |d.addedIds| ==> LessEq(d.addedIds[i], d.addedIds[j]))
      && (j < |d.resolvedIds| ==> LessEq(d.resolvedIds[i], d.resolvedIds[j]))
  {
    hide Collect, StableSorted, IndexBy, KeyLess, KeyLessEq, Less;
    var f, t := IndexBy(from, TopicKey()), IndexBy(to, TopicKey());
    var g, u := IndexBy(fromPending, ItemTopic()), IndexBy(toPending, ItemTopic());
    SortsStably(Collect(t.Values(), OnlyHere(f.at)), RefKey());
    SortsStably(Collect(f.Values(), OnlyHere(t.at)), RefKey());
    SortsStably(Collect(t.Values(), ChangedFrom(h, f.at)), ChangeKey());
    SortsStably(Collect(t.Values(), MovedFrom(f.at)), MoveKey());
    SortsStably(Collect(u.Values(), PendingOnlyHere(g.at)), TextKey());
    SortsStably(Collect(g.Values(), PendingOnlyHere(u.at)), TextKey());
    RefsInOrder(ChainsOf(h, from, to).added, i, j);
    RefsInOrder(ChainsOf(h, from, to).removed, i, j);
    ChangesInOrder(ChainsOf(h, from, to).changed, i, j);
    MovesInOrder(MovesOf(from, to), i, j);
    TextsInOrder(PendingOf(fromPending, toPending).addedIds, i, j);
    TextsInOrder(PendingOf(fromPending, toPending).resolvedIds, i, j);
  }

  lemma RefsInOrder(s: seq<ChainRef>, i: nat, j: nat)
    requires Sorted(s, RefKey())
    ensures i < j < |s| ==> ExportOrder.First(s[i].topicKey, s[j].topicKey, LessEq(s[i].memoryId, s[j].memoryId))
  {
    hide KeyLessEq, Less;
    if i < j < |s| {
      ExportOrder.TwoTexts(s[i].topicKey, s[i].memoryId, s[j].topicKey, s[j].memoryId);
    }
  }

  lemma ChangesInOrder(s: seq<ChainChange>, i: nat, j: nat)
    requires Sorted(s, ChangeKey())
    ensures i < j < |s| ==> LessEq(s[i].topicKey, s[j].topicKey)
  {
    hide KeyLessEq, Less;
    if i < j < |s| {
      ExportOrder.ThreeTexts(s[i].topicKey, s[i].fromId, s[i].toId, s[j].topicKey, s[j].fromId, s[j].toId);
    }
  }

  lemma MovesInOrder(s: seq<StatusChange>, i: nat, j: nat)
    requires Sorted(s, MoveKey())
    ensures i < j < |s| ==> LessEq(s[i].topicKey, s[j].topicKey)
  {
    hide KeyLessEq, Less;
    if i < j < |s| {
      ExportOrder.ThreeTexts(s[i].topicKey, s[i].fromId, s[i].toId, s[j].topicKey, s[j].fromId, s[j].toId);
    }
  }

  lemma TextsInOrder(s: seq<string>, i: nat, j: nat)
    requires Sorted(s, TextKey())
    ensures i < j < |s| ==> LessEq(s[i], s[j])
  {
    hide KeyLessEq, Less;
    if i < j < |s| {
      ExportOrder.OneText(s[i], s[j]);
    }
  }
}
