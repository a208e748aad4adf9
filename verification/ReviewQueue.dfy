/** The review queue of a scope: which rows are in it, in what order, and what its pages show. */
module ReviewQueue {
  import opened Text
  import opened Records
  import opened Sorting
  import opened Lists
  import opened StableSort
  import opened StoreModel
  import opened JudgmentModel
  import opened RevisionChains

  datatype QueueQuery = QueueQuery(scope: Scope, limit: Option<int>, offset: Option<int>)

  datatype QueueItem = QueueItem(
    memoryId: string, kind: string, fiscalEffect: FiscalEffect, materialityLevel: MaterialityLevel, status: Status,
    envelopeHash: string, recordedBy: string, recordedAt: string, evidenceRefCount: nat, ruleRefCount: nat,
    openJudgmentCount: nat)

  datatype QueuePage = QueuePage(items: seq<QueueItem>, limit: int, offset: int)

  function MaterialityRank(level: MaterialityLevel): int {
    if level == Critical then 3 else if level == Material then 2 else 1
  }

  /** Critical first, then earlier first. */
  function QueueKey(): Memory -> Key {
    (m: Memory) => [N(-MaterialityRank(m.materialityLevel)), S(m.recordedAt)]
  }

  function PendingIn(scope: Scope): Memory -> bool {
    (m: Memory) => m.status == PendingReview && m.scope == scope
  }

  function Queue(ms: seq<Memory>, scope: Scope): seq<Memory> {
    StableSorted(Filter(ms, PendingIn(scope)), QueueKey())
  }

  function PageLimit(limit: Option<int>): int {
    match limit
    case None => 50
    case Some(l) => if l == 0 then 50 else if l < 1 then 1 else if l > 200 then 200 else l
  }

  /** `slice(from, to)`: negative ends count from the back. */
  function Slice<T>(s: seq<T>, from: int, to: int): seq<T> {
    var i, j := Clamp(from, |s|), Clamp(to, |s|);
    if i < j then s[i..j] else []
  }

  function Clamp(i: int, n: nat): (r: nat)
    ensures r <= n
  {
    if i < 0 then if i + n < 0 then 0 else i + n else if i < n then i else n
  }

  function TouchedBy(memoryId: string): Judgment -> bool {
    (j: Judgment) => j.status == Proposed && (j.fromId == memoryId || j.toId == memoryId)
  }

  function ItemOf(p: Primitives, js: seq<Judgment>): Memory -> QueueItem {
    (m: Memory) => QueueItem(m.id, m.kind, m.fiscalEffect, m.materialityLevel, m.status, Envelope(p, m), m.source.actorId,
                             m.recordedAt, |m.evidenceRefs|, |m.ruleRefs|, |Filter(js, TouchedBy(m.id))|)
  }

  function Page(p: Primitives, ms: seq<Memory>, js: seq<Judgment>, q: QueueQuery): QueuePage {
    var limit, offset := PageLimit(q.limit), if q.offset.Some? then q.offset.value else 0;
    QueuePage(Mapped(Slice(Queue(ms, q.scope), offset, offset + limit), ItemOf(p, js)), limit, offset)
  }

  // --------------------------------------------------------------- membership

  /** The queue of a scope is exactly its pending rows, each once. */
  lemma QueueIsExactlyPending(ms: seq<Memory>, scope: Scope, m: Memory)
    ensures m in Queue(ms, scope) <==> m in ms && m.status == PendingReview && m.scope == scope
    ensures DistinctIds(ms) ==> forall i, j | 0 <= i < j < |Queue(ms, scope)| :: Queue(ms, scope)[i].id != Queue(ms, scope)[j].id
  {
    var pending, queue := Filter(ms, PendingIn(scope)), Queue(ms, scope);
    SortKeepsRows(pending, QueueKey());
    if DistinctIds(ms) {
      FilterKeepsDistinct(ms, PendingIn(scope));
      SortsStably(pending, QueueKey());
      SameMultisetDistinct(pending, queue);
      forall i, j | 0 <= i < j < |queue| ensures queue[i].id != queue[j].id {
        assert queue[i] in queue && queue[j] in queue;
        var a :| 0 <= a < |ms| && ms[a] == queue[i];
        var b :| 0 <= b < |ms| && ms[b] == queue[j];
      }
    }
  }

  // -------------------------------------------------------------------- order

  /** The row of the queue that must be looked at before another: riskier, or as risky and recorded earlier. */
  predicate Before(a: Memory, b: Memory) {
    var ra, rb := MaterialityRank(a.materialityLevel), MaterialityRank(b.materialityLevel);
    ra > rb || (ra == rb && Less(a.recordedAt, b.recordedAt))
  }

  lemma BeforeIsKeyLess(a: Memory, b: Memory)
    ensures Before(a, b) <==> KeyLess(QueueKey()(a), QueueKey()(b))
  {
    var ka, kb := QueueKey()(a), QueueKey()(b);
    var restA, restB := [S(a.recordedAt)], [S(b.recordedAt)];
    assert ka[1..] == restA && kb[1..] == restB;
    assert KeyLess(restA, restB) <==> Less(a.recordedAt, b.recordedAt) by {
      LessIrreflexive(a.recordedAt);
    }
  }

  lemma SameKeySameRisk(a: Memory, b: Memory)
    ensures QueueKey()(a) == QueueKey()(b) <==>
            MaterialityRank(a.materialityLevel) == MaterialityRank(b.materialityLevel) && a.recordedAt == b.recordedAt
  {
    var ka, kb := QueueKey()(a), QueueKey()(b);
    assert ka[0] == kb[0] && ka[1] == kb[1] ==> ka == kb;
    assert ka == kb ==> ka[0] == kb[0] && ka[1] == kb[1];
  }

  /** The row at i is looked at before the one at j: riskier, or as risky and recorded earlier, or stored earlier. */
  predicate StandsBefore(ms: seq<Memory>, i: nat, j: nat)
    requires i < |ms| && j < |ms|
  {
    Before(ms[i], ms[j]) ||
    (MaterialityRank(ms[i].materialityLevel) == MaterialityRank(ms[j].materialityLevel) &&
     ms[i].recordedAt == ms[j].recordedAt && i < j)
  }

  /** The places of the pending rows of a scope, each once, in the order in which they are looked at. */
  ghost predicate QueuePlaces(ms: seq<Memory>, scope: Scope, places: seq<nat>) {
    && (forall i: nat :: i in places <==> i < |ms| && ms[i].status == PendingReview && ms[i].scope == scope)
    && (forall k, l | 0 <= k < l < |places| ::
          places[k] < |ms| && places[l] < |ms| && StandsBefore(ms, places[k], places[l]))
  }

  lemma BeforeOrder(ms: seq<Memory>, i: nat, j: nat)
    requires i < |ms| && j < |ms|
    ensures !(StandsBefore(ms, i, j) && StandsBefore(ms, j, i))
    ensures !StandsBefore(ms, i, i)
  {
    if Less(ms[i].recordedAt, ms[j].recordedAt) {
      LessAsymmetric(ms[i].recordedAt, ms[j].recordedAt);
    }
    LessIrreflexive(ms[i].recordedAt);
  }

  /** There is only one such order. */
  lemma {:induction false} PlacesAreFixed(ms: seq<Memory>, a: seq<nat>, b: seq<nat>)
    requires forall i: nat :: i in a <==> i in b
    requires forall k, l | 0 <= k < l < |a| :: a[k] < |ms| && a[l] < |ms| && StandsBefore(ms, a[k], a[l])
    requires forall k, l | 0 <= k < l < |b| :: b[k] < |ms| && b[l] < |ms| && StandsBefore(ms, b[k], b[l])
    requires forall i | i in a :: i < |ms|
    ensures a == b
  {
    assert a != [] ==> a[0] in a && a[0] in b;
    assert b != [] ==> b[0] in b && b[0] in a;
    if a != [] {
      FirstStandsBefore(ms, a, b[0]);
      FirstStandsBefore(ms, b, a[0]);
      BeforeOrder(ms, a[0], b[0]);
      forall i: nat ensures i in a[1..] <==> i in b[1..] {
        HeadIsNotLater(ms, a, i);
        HeadIsNotLater(ms, b, i);
      }
      PlacesAreFixed(ms, a[1..], b[1..]);
      assert a == [a[0]] + a[1..] && b == [b[0]] + b[1..];
    }
  }

  lemma FirstStandsBefore(ms: seq<Memory>, a: seq<nat>, i: nat)
    requires i in a && i < |ms| && a[0] < |ms|
    requires forall k, l | 0 <= k < l < |a| :: a[k] < |ms| && a[l] < |ms| && StandsBefore(ms, a[k], a[l])
    ensures i == a[0] || StandsBefore(ms, a[0], i)
  {
    var l :| 0 <= l < |a| && a[l] == i;
  }

  lemma QueuePlacesAreFixed(ms: seq<Memory>, scope: Scope, a: seq<nat>, b: seq<nat>)
    requires QueuePlaces(ms, scope, a) && QueuePlaces(ms, scope, b)
    ensures a == b
  {
    forall i: nat ensures i in a <==> i in b {
      assert i in a <==> i < |ms| && ms[i].status == PendingReview && ms[i].scope == scope;
      assert i in b <==> i < |ms| && ms[i].status == PendingReview && ms[i].scope == scope;
    }
    assert forall i | i in a :: i < |ms|;
    PlacesAreFixed(ms, a, b);
  }

  lemma HeadIsNotLater(ms: seq<Memory>, a: seq<nat>, i: nat)
    requires a != [] && forall k, l | 0 <= k < l < |a| :: a[k] < |ms| && a[l] < |ms| && StandsBefore(ms, a[k], a[l])
    requires forall i | i in a :: i < |ms|
    ensures i in a[1..] <==> i in a && i != a[0]
  {
    if i in a[1..] {
      var l :| 0 <= l < |a[1..]| && a[1..][l] == i;
      assert a[l + 1] == i && StandsBefore(ms, a[0], a[l + 1]);
      BeforeOrder(ms, a[0], a[0]);
    }
  }

  /** A row and where it is stored. */
  datatype Numbering = Numbering(place: nat, row: Memory)

  function Place(): Numbering -> nat {
    (x: Numbering) => x.place
  }

  function Row(): Numbering -> Memory {
    (x: Numbering) => x.row
  }

  function Numbered(ms: seq<Memory>): seq<Numbering> {
    seq(|ms|, i requires 0 <= i < |ms| => Numbering(i, ms[i]))
  }

  function PendingPair(scope: Scope): Numbering -> bool {
    (x: Numbering) => PendingIn(scope)(x.row)
  }

  /** The order of the queue: it shows the pending rows at their places. */
  lemma QueueOrder(ms: seq<Memory>, scope: Scope) returns (places: seq<nat>)
    ensures QueuePlaces(ms, scope, places) && |places| == |Queue(ms, scope)|
    ensures forall k | 0 <= k < |places| :: places[k] < |ms| && Queue(ms, scope)[k] == ms[places[k]]
  {
    hide Filter, StableSorted, Mapped, Before, QueueKey;
    var key := Through(Row(), QueueKey());
    var pending := Filter(Numbered(ms), PendingPair(scope));
    var sorted := StableSorted(pending, key);
    places := Mapped(sorted, Place());
    FilterMapped(Numbered(ms), Row(), PendingIn(scope), PendingPair(scope));
    SortMapped(pending, Row(), QueueKey());
    RowsOfNumbered(ms);
    SortKeepsRows(pending, key);
    MappedAt(sorted, Place());
    MappedAt(sorted, Row());
    forall k | 0 <= k < |sorted| ensures sorted[k].place < |ms| && sorted[k].row == ms[sorted[k].place] && PendingIn(scope)(sorted[k].row) {
      assert sorted[k] in pending;
      assert sorted[k] in Numbered(ms);
    }
    forall i: nat | i < |ms| && PendingIn(scope)(ms[i]) ensures i in places {
      assert Numbered(ms)[i] in Numbered(ms);
      assert Numbering(i, ms[i]) in pending;
      var k :| 0 <= k < |sorted| && sorted[k] == Numbering(i, ms[i]);
      assert places[k] == i;
    }
    forall k, l | 0 <= k < l < |places| ensures StandsBefore(ms, places[k], places[l]) {
      PairOrder(ms, scope, k, l);
    }
  }

  lemma MappedAt<T, U>(s: seq<T>, f: T -> U)
    ensures |Mapped(s, f)| == |s| && forall i | 0 <= i < |s| :: Mapped(s, f)[i] == f(s[i])
  {
  }

  lemma RowsOfNumbered(ms: seq<Memory>)
    ensures Mapped(Numbered(ms), Row()) == ms
  {
  }

  lemma PairOrder(ms: seq<Memory>, scope: Scope, k: nat, l: nat)
    requires k < l < |StableSorted(Filter(Numbered(ms), PendingPair(scope)), Through(Row(), QueueKey()))|
    ensures
      var sorted := StableSorted(Filter(Numbered(ms), PendingPair(scope)), Through(Row(), QueueKey()));
      && sorted[k].place < |ms| && sorted[l].place < |ms| && sorted[k].row == ms[sorted[k].place] && sorted[l].row == ms[sorted[l].place]
      && StandsBefore(ms, sorted[k].place, sorted[l].place)
  {
    hide Filter, StableSorted, QueueKey, Before, KeyLess;
    var key := Through(Row(), QueueKey());
    var pending := Filter(Numbered(ms), PendingPair(scope));
    var sorted := StableSorted(pending, key);
    SortsStably(pending, key);
    SortKeepsRows(pending, key);
    assert sorted[k] in pending && sorted[l] in pending;
    assert sorted[k] in Numbered(ms) && sorted[l] in Numbered(ms);
    BeforeIsKeyLess(sorted[k].row, sorted[l].row);
    SameKeySameRisk(sorted[k].row, sorted[l].row);
    assert KeyLessEq(key(sorted[k]), key(sorted[l]));
    if key(sorted[k]) == key(sorted[l]) {
      var i, j := StableOrder(pending, key, k, l);
      var m, n := FilterOrigins(Numbered(ms), PendingPair(scope), i, j);
    }
  }

  /** What a page shows: a window of the queue, row by row. */
  ghost predicate PageShows(p: Primitives, ms: seq<Memory>, js: seq<Judgment>, q: QueueQuery, page: QueuePage) {
    && 1 <= page.limit <= 200
    && (q.limit.None? || q.limit.value == 0 ==> page.limit == 50)
    && (q.limit.Some? && 1 <= q.limit.value <= 200 ==> page.limit == q.limit.value)
    && (q.limit.Some? && q.limit.value < 0 ==> page.limit == 1) && (q.limit.Some? && q.limit.value > 200 ==> page.limit == 200)
    && page.offset == (if q.offset.Some? then q.offset.value else 0)
    && exists places :: QueuePlaces(ms, q.scope, places) && WindowShows(p, ms, js, places, page)
  }

  ghost predicate WindowShows(p: Primitives, ms: seq<Memory>, js: seq<Judgment>, places: seq<nat>, page: QueuePage) {
    var window := Slice(places, page.offset, page.offset + page.limit);
    |page.items| == |window| &&
    forall k | 0 <= k < |window| :: window[k] < |ms| && page.items[k] == ItemOf(p, js)(ms[window[k]])
  }

  lemma PageIsShown(p: Primitives, ms: seq<Memory>, js: seq<Judgment>, q: QueueQuery)
    ensures PageShows(p, ms, js, q, Page(p, ms, js, q))
  {
    hide Queue, Mapped, QueuePlaces, ItemOf;
    var page, queue := Page(p, ms, js, q), Queue(ms, q.scope);
    var places := QueueOrder(ms, q.scope);
    MappedAt(Slice(queue, page.offset, page.offset + page.limit), ItemOf(p, js));
    assert WindowShows(p, ms, js, places, page);
  }

  // -------------------------------------------------------------------- words

  /** a is of a heavier level: critical over material over everything else. */
  predicate Heavier(a: MaterialityLevel, b: MaterialityLevel) {
    (a == Critical && b != Critical) || (a == Material && b in {Undeclared, Normal})
  }

  lemma HeavierIff(a: MaterialityLevel, b: MaterialityLevel)
    ensures MaterialityRank(a) > MaterialityRank(b) <==> Heavier(a, b)
  {
  }

  /** The item shows the row's own fields, its fresh envelope, its recorder, and how many open proposals touch it. */
  ghost predicate ShowsRow(p: Primitives, js: seq<Judgment>, m: Memory, item: QueueItem) {
    && item.memoryId == m.id && item.kind == m.kind && item.fiscalEffect == m.fiscalEffect
    && item.materialityLevel == m.materialityLevel && item.status == m.status
    && item.envelopeHash == p.envelopeHash(ViewOf(m)) && item.recordedBy == m.source.actorId && item.recordedAt == m.recordedAt
    && item.evidenceRefCount == |m.evidenceRefs| && item.ruleRefCount == |m.ruleRefs|
    && item.openJudgmentCount == |Touching(js, m.id)|
  }

  predicate Touches(j: Judgment, id: string) {
    j.status == Proposed && id in {j.fromId, j.toId}
  }

  /** The open proposals that touch a row. */
  ghost function Touching(js: seq<Judgment>, id: string): set<nat> {
    set i: nat | i < |js| && Touches(js[i], id)
  }

  lemma TouchingGrows(front: seq<Judgment>, last: Judgment, id: string)
    ensures |Touching(front + [last], id)| == |Touching(front, id)| + if Touches(last, id) then 1 else 0
  {
    hide Touches;
    var js := front + [last];
    assert forall i | 0 <= i < |front| :: js[i] == front[i];
    assert js[|front|] == last;
    assert Touching(js, id) == Touching(front, id) + if Touches(last, id) then {|front|} else {};
  }

  lemma {:induction false} OpenCount(js: seq<Judgment>, id: string)
    ensures |Filter(js, TouchedBy(id))| == |Touching(js, id)|
  {
    hide Touching, Filter;
    if js == [] {
      NothingTouches(id);
    } else {
      var front, last := js[..|js| - 1], js[|js| - 1];
      OpenCount(front, id);
      assert js == front + [last];
      FilterConcat(front, [last], TouchedBy(id));
      FilterOne(last, TouchedBy(id));
      TouchingGrows(front, last, id);
      assert TouchedBy(id)(last) == Touches(last, id);
    }
  }

  lemma NothingTouches(id: string)
    ensures Filter([], TouchedBy(id)) == [] && Touching([], id) == {}
  {
  }

  lemma ItemShowsRow(p: Primitives, js: seq<Judgment>, m: Memory)
    ensures ShowsRow(p, js, m, ItemOf(p, js)(m))
  {
    hide Filter;
    OpenCount(js, m.id);
  }

  lemma LaterIsLighter(ms: seq<Memory>, i: nat, j: nat)
    requires i < |ms| && j < |ms| && StandsBefore(ms, i, j)
    ensures !Heavier(ms[j].materialityLevel, ms[i].materialityLevel)
    ensures !Heavier(ms[i].materialityLevel, ms[j].materialityLevel) ==> LessEq(ms[i].recordedAt, ms[j].recordedAt)
  {
    hide Less;
    HeavierIff(ms[i].materialityLevel, ms[j].materialityLevel);
    HeavierIff(ms[j].materialityLevel, ms[i].materialityLevel);
  }

  /** The k-th item of a page from a given offset on: the row at that place of the queue, which is pending in the scope;
      rows at later places are of no heavier level, and of the same level not recorded earlier. */
  lemma PageInWords(p: Primitives, ms: seq<Memory>, js: seq<Judgment>, q: QueueQuery, page: QueuePage, k: nat) returns (places: seq<nat>)
    requires PageShows(p, ms, js, q, page) && page.offset >= 0 && k < |page.items|
    ensures |page.items| <= page.limit && page.offset + k < |places|
    ensures |page.items| == page.limit || page.offset + |page.items| == |places|
    ensures forall i: nat :: i in places <==> i < |ms| && ms[i].status == PendingReview && ms[i].scope == q.scope
    ensures places[page.offset + k] < |ms| && ShowsRow(p, js, ms[places[page.offset + k]], page.items[k])
    ensures forall l | page.offset + k < l < |places| ::
      && places[l] < |ms|
      && var a, b := ms[places[page.offset + k]], ms[places[l]];
         !Heavier(b.materialityLevel, a.materialityLevel) &&
         (!Heavier(a.materialityLevel, b.materialityLevel) ==> LessEq(a.recordedAt, b.recordedAt))
  {
    hide ItemOf, ShowsRow, Less, StandsBefore, Heavier;
    places :| QueuePlaces(ms, q.scope, places) && WindowShows(p, ms, js, places, page);
    var at := page.offset + k;
    assert places[at] in places;
    ItemShowsRow(p, js, ms[places[at]]);
    forall l | at < l < |places|
      ensures places[l] < |ms|
      ensures
        var a, b := ms[places[at]], ms[places[l]];
        !Heavier(b.materialityLevel, a.materialityLevel) &&
        (!Heavier(a.materialityLevel, b.materialityLevel) ==> LessEq(a.recordedAt, b.recordedAt))
    {
      LaterIsLighter(ms, places[at], places[l]);
    }
  }

  // -------------------------------------------------------------------- pages

  /** The first n pages of the queue, one after the other. */
  function Pages(p: Primitives, ms: seq<Memory>, js: seq<Judgment>, scope: Scope, size: nat, n: nat): seq<QueueItem> {
    if n == 0 then []
    else Pages(p, ms, js, scope, size, n - 1) + Page(p, ms, js, QueueQuery(scope, Some(size), Some((n - 1) * size))).items
  }

  lemma {:induction false} PagesAreAPrefix(p: Primitives, ms: seq<Memory>, js: seq<Judgment>, scope: Scope, size: nat, n: nat)
    requires 1 <= size <= 200
    ensures
      var items := Mapped(Queue(ms, scope), ItemOf(p, js));
      Pages(p, ms, js, scope, size, n) == items[..Clamp(n * size, |items|)]
  {
    hide Queue, Mapped, Slice, Clamp;
    var queue := Queue(ms, scope);
    var items := Mapped(queue, ItemOf(p, js));
    if n == 0 {
      NothingYet(items);
    } else {
      var from := (n - 1) * size;
      PagesAreAPrefix(p, ms, js, scope, size, n - 1);
      assert n * size == from + size;
      MappedSlice(queue, ItemOf(p, js), from, from + size);
      PrefixGrows(items, from, size);
      SizeIsLegal(size);
    }
  }

  lemma NothingYet<T>(s: seq<T>)
    ensures s[..Clamp(0, |s|)] == []
  {
  }

  lemma SizeIsLegal(size: nat)
    requires 1 <= size <= 200
    ensures PageLimit(Some(size)) == size
  {
  }

  lemma PrefixGrows<T>(s: seq<T>, from: nat, size: nat)
    ensures s[..Clamp(from, |s|)] + Slice(s, from, from + size) == s[..Clamp(from + size, |s|)]
  {
  }

  lemma MappedSlice<T, U>(s: seq<T>, f: T -> U, from: nat, to: nat)
    ensures Mapped(Slice(s, from, to), f) == Slice(Mapped(s, f), from, to)
  {
  }

  /** Pages of any legal size, taken one after the other, show every row of the queue exactly once, in order. */
  lemma PagesPartitionTheQueue(p: Primitives, ms: seq<Memory>, js: seq<Judgment>, scope: Scope, size: nat, n: nat)
    requires 1 <= size <= 200 && n * size >= |Queue(ms, scope)|
    ensures Pages(p, ms, js, scope, size, n) == Mapped(Queue(ms, scope), ItemOf(p, js))
  {
    PagesAreAPrefix(p, ms, js, scope, size, n);
  }

  // ---------------------------------------------------------------- decisions

  lemma FilterUpdate<T>(s: seq<T>, at: nat, x: T, keep: T -> bool) returns (k: nat)
    requires at < |s| && keep(s[at]) && !keep(x)
    ensures k < |Filter(s, keep)| && Filter(s, keep)[k] == s[at]
    ensures Filter(s[at := x], keep) == Filter(s, keep)[..k] + Filter(s, keep)[k + 1..]
  {
    hide Filter;
    var front, back := s[..at], s[at + 1..];
    assert s == front + [s[at]] + back && s[at := x] == front + [x] + back;
    FilterMiddle(front, s[at], back, keep);
    FilterMiddle(front, x, back, keep);
    k := |Filter(front, keep)|;
  }

  /** Without one of its rows, the queue is still what sorting gives. */
  lemma SortWithout(s: seq<Memory>, k: nat) returns (i: nat)
    requires k < |s| && Lists.Distinct(s)
    ensures i < |s| == |StableSorted(s, QueueKey())| && StableSorted(s, QueueKey())[i] == s[k]
    ensures StableSorted(s[..k] + s[k + 1..], QueueKey()) ==
            StableSorted(s, QueueKey())[..i] + StableSorted(s, QueueKey())[i + 1..]
  {
    hide StableSorted, Group, QueueKey, KeyLessEq;
    var key, sorted := QueueKey(), StableSorted(s, QueueKey());
    SortsStably(s, key);
    SortKeepsRows(s, key);
    assert s[k] in s;
    i :| 0 <= i < |sorted| && sorted[i] == s[k];
    var less, fewer := sorted[..i] + sorted[i + 1..], s[..k] + s[k + 1..];
    SameMultisetDistinct(s, sorted);
    SortedWithout(sorted, i, key);
    forall g ensures Group(less, key, g) == Group(fewer, key, g) {
      GroupWithout(sorted, i, key, g);
      GroupWithout(s, k, key, g);
    }
    StableSortIsUnique(fewer, less, key);
  }

  lemma SortedWithout<T>(s: seq<T>, i: nat, key: T -> Key)
    requires i < |s| && Sorted(s, key)
    ensures Sorted(s[..i] + s[i + 1..], key)
  {
    hide KeyLessEq;
  }

  function Other(x: Memory): Memory -> bool {
    y => y != x
  }

  lemma WithoutIsFilter(s: seq<Memory>, k: nat)
    requires k < |s| && Lists.Distinct(s)
    ensures s[..k] + s[k + 1..] == Filter(s, Other(s[k]))
  {
    hide Filter;
    var front, back := s[..k], s[k + 1..];
    assert s == front + [s[k]] + back;
    FilterMiddle(front, s[k], back, Other(s[k]));
    FilterAll(front, Other(s[k]));
    FilterAll(back, Other(s[k]));
  }

  lemma GroupWithout(s: seq<Memory>, k: nat, key: Memory -> Key, g: Key)
    requires k < |s| && Lists.Distinct(s)
    ensures Group(s[..k] + s[k + 1..], key, g) == Filter(Group(s, key, g), Other(s[k]))
  {
    WithoutIsFilter(s, k);
    FiltersCommute(s, Other(s[k]), Has(key, g));
  }

  lemma {:induction false} FiltersCommute<T>(s: seq<T>, a: T -> bool, b: T -> bool)
    ensures Filter(Filter(s, a), b) == Filter(Filter(s, b), a)
  {
    if s != [] {
      FiltersCommute(s[1..], a, b);
      FilterConcat(if a(s[0]) then [s[0]] else [], Filter(s[1..], a), b);
      FilterConcat(if b(s[0]) then [s[0]] else [], Filter(s[1..], b), a);
    }
  }

  /** A pending row that stops being pending leaves its queue; every other row keeps its place. */
  lemma LeavingTheQueue(ms: seq<Memory>, at: nat, m: Memory) returns (i: nat)
    requires DistinctIds(ms) && at < |ms| && ms[at].status == PendingReview && m.status != PendingReview
    ensures
      var queue, after := Queue(ms, ms[at].scope), Queue(ms[at := m], ms[at].scope);
      i < |queue| && queue[i] == ms[at] && after == queue[..i] + queue[i + 1..]
  {
    var scope := ms[at].scope;
    FilterKeepsDistinct(ms, PendingIn(scope));
    var k := FilterUpdate(ms, at, m, PendingIn(scope));
    i := SortWithout(Filter(ms, PendingIn(scope)), k);
  }

  /** The queues of other scopes do not move. */
  lemma OtherQueuesStay(ms: seq<Memory>, at: nat, m: Memory, scope: Scope)
    requires at < |ms| && ms[at].scope == m.scope != scope
    ensures Queue(ms[at := m], scope) == Queue(ms, scope)
  {
    var front, back := ms[..at], ms[at + 1..];
    assert ms == front + [ms[at]] + back && ms[at := m] == front + [m] + back;
    FilterMiddle(front, ms[at], back, PendingIn(scope));
    FilterMiddle(front, m, back, PendingIn(scope));
  }

  /** An approval that is not a replay takes exactly the approved row off its queue, leaves the order of the
      others and touches no other queue. */
  lemma ApprovalTakesOneOff(p: Primitives, s: State, c: ApproveCommand, who: Principal, policy: ApprovalPolicy,
                            eventId: string, now: string, scope: Scope)
      returns (at: nat, i: nat)
    requires DistinctIds(s.memories)
    requires var (after, out) := ApproveStep(p, s, c, who, policy, eventId, now); out.Ok? && !out.value.idempotentReplay
    ensures at < |s.memories| && s.memories[at].id == c.memoryId
    ensures
      var after := ApproveStep(p, s, c, who, policy, eventId, now).0.memories;
      var queue := Queue(s.memories, scope);
      if s.memories[at].scope == scope
      then i < |queue| && queue[i] == s.memories[at] && Queue(after, scope) == queue[..i] + queue[i + 1..]
      else Queue(after, scope) == queue
  {
    at := ApprovalCheck(p, s, c, who, policy).value.0;
    i := 0;
    var m := WithStatus(p, s.memories[at], Approved);
    assert ApproveStep(p, s, c, who, policy, eventId, now).0.memories == s.memories[at := m];
    if s.memories[at].scope == scope {
      i := LeavingTheQueue(s.memories, at, m);
    } else {
      OtherQueuesStay(s.memories, at, m, scope);
    }
  }
}
