/** Period-over-period comparison: which chains are new, removed, changed or unchanged, and that nothing is
    lost or counted twice. */
module PeriodComparison {
  import opened Text
  import opened Records
  import opened Sorting
  import opened Lists
  import opened StableSort

  datatype ChainRef = ChainRef(topicKey: string, memoryId: string, kind: string, status: Status, title: string)

  datatype ChainChange = ChainChange(topicKey: string, fromId: string, toId: string, kind: string, title: string)

  datatype StatusChange = StatusChange(topicKey: string, fromId: string, toId: string, fromStatus: Status, toStatus: Status)

  datatype PendingItem = PendingItem(topicKey: string, memoryId: string)

  datatype PendingDelta = PendingDelta(from: nat, to: nat, delta: int, addedIds: seq<string>, resolvedIds: seq<string>)

  datatype Chains = Chains(added: seq<ChainRef>, removed: seq<ChainRef>, changed: seq<ChainChange>, unchangedCount: nat)

  datatype Comparison = Comparison(
    fromTotal: nat, toTotal: nat, delta: int, byKindDelta: map<string, int>, byStatusDelta: map<Status, int>,
    chains: Chains, statusChanges: seq<StatusChange>, pendingItems: PendingDelta)

  // ------------------------------------------------------------- ref multisets

  function CountOf<T(==)>(counts: map<T, int>, x: T): int {
    if x in counts then counts[x] else 0
  }

  /** How many more times k occurs in `to` than in `from`. */
  function Difference<K(==)>(from: seq<K>, to: seq<K>, k: K): int {
    multiset(to)[k] as int - multiset(from)[k] as int
  }

  /** The counts of a list from which another one was taken away. */
  ghost predicate Left(counts: map<string, int>, a: seq<string>, taken: seq<string>) {
    forall x :: 0 <= CountOf(counts, x) == Difference(taken, a, x)
  }

  lemma LeftAdds(counts: map<string, int>, a: seq<string>, k: string)
    requires Left(counts, a, [])
    ensures Left(counts[k := CountOf(counts, k) + 1], a + [k], [])
  {
    forall x ensures Difference([], a + [k], x) == Difference([], a, x) + if x == k then 1 else 0 {
    }
  }

  lemma LeftTakes(counts: map<string, int>, a: seq<string>, taken: seq<string>, k: string)
    requires Left(counts, a, taken) && CountOf(counts, k) > 0
    ensures Left(counts[k := CountOf(counts, k) - 1], a, taken + [k])
  {
    forall x ensures Difference(taken + [k], a, x) == Difference(taken, a, x) - if x == k then 1 else 0 {
    }
  }

  lemma NothingLeft(counts: map<string, int>, a: seq<string>, taken: seq<string>, k: string, rest: seq<string>)
    requires Left(counts, a, taken) && CountOf(counts, k) <= 0
    ensures multiset(a) != multiset(taken + [k] + rest)
  {
    assert multiset(taken + [k] + rest)[k] > multiset(taken)[k];
    assert Difference(taken, a, k) == 0;
  }

  lemma AllTaken(counts: map<string, int>, a: seq<string>, b: seq<string>)
    requires Left(counts, a, b) && |a| == |b|
    ensures multiset(a) == multiset(b)
  {
    forall x ensures multiset(b)[x] <= multiset(a)[x] {
      assert 0 <= CountOf(counts, x) == Difference(b, a, x);
    }
    SameSizeIncluded(multiset(a), multiset(b));
  }

  /** `refSetsEqual`: equal as multisets. */
  method RefSetsEqual(a: seq<string>, b: seq<string>) returns (equal: bool)
    ensures equal <==> multiset(a) == multiset(b)
  {
    if |a| != |b| {
      assert |multiset(a)| == |a| && |multiset(b)| == |b|;
      return false;
    }
    var counts: map<string, int> := map[];
    for i := 0 to |a|
      invariant Left(counts, a[..i], [])
    {
      assert a[..i + 1] == a[..i] + [a[i]];
      LeftAdds(counts, a[..i], a[i]);
      counts := counts[a[i] := CountOf(counts, a[i]) + 1];
    }
    assert a[..|a|] == a;
    for j := 0 to |b|
      invariant Left(counts, a, b[..j])
    {
      assert b[..j + 1] == b[..j] + [b[j]] && b == b[..j] + [b[j]] + b[j + 1..];
      var next := CountOf(counts, b[j]) - 1;
      if next < 0 {
        NothingLeft(counts, a, b[..j], b[j], b[j + 1..]);
        return false;
      }
      LeftTakes(counts, a, b[..j], b[j]);
      counts := counts[b[j] := next];
    }
    assert b[..|b|] == b;
    AllTaken(counts, a, b);
    equal := true;
  }

  lemma SameSizeIncluded<T>(a: multiset<T>, b: multiset<T>)
    requires b <= a && |a| == |b|
    ensures a == b
  {
    assert a == b + (a - b);
  }

  /** Equality of the sets is what the comment promises. It is what the code decides for lists without repetitions. */
  lemma SetEqualityIff(a: seq<string>, b: seq<string>)
    requires Distinct(a) && Distinct(b)
    ensures multiset(a) == multiset(b) <==> forall x :: x in a <==> x in b
  {
    if multiset(a) == multiset(b) {
      forall x ensures x in a <==> x in b {
        assert x in a <==> x in multiset(a);
        assert x in b <==> x in multiset(b);
      }
    } else if forall x :: x in a <==> x in b {
      SameElementsSameLength(a, b);
      assert false;
    }
  }

  /** A repeated reference marks a chain changed although the sets are equal. */
  lemma RepetitionIsNotIgnored(x: string)
    ensures multiset([x, x]) != multiset([x])
  {
    assert multiset([x, x])[x] == 2;
  }

  // ------------------------------------------------------------------- deltas

  /** One entry per value present, and the difference of its counts. */
  ghost predicate IsDelta<K(!new)>(deltas: map<K, int>, from: seq<K>, to: seq<K>) {
    (forall k :: k in deltas <==> k in from || k in to) && (forall k :: CountOf(deltas, k) == Difference(from, to, k))
  }

  lemma DeltaDown<K(!new)>(deltas: map<K, int>, from: seq<K>, k: K)
    requires IsDelta(deltas, from, [])
    ensures IsDelta(deltas[k := CountOf(deltas, k) - 1], from + [k], [])
  {
    forall x ensures Difference(from + [k], [], x) == Difference(from, [], x) - if x == k then 1 else 0 {
    }
  }

  lemma DeltaUp<K(!new)>(deltas: map<K, int>, from: seq<K>, to: seq<K>, k: K)
    requires IsDelta(deltas, from, to)
    ensures IsDelta(deltas[k := CountOf(deltas, k) + 1], from, to + [k])
  {
    forall x ensures Difference(from, to + [k], x) == Difference(from, to, x) + if x == k then 1 else 0 {
    }
  }

  /** `kindDeltas` and `statusDeltas`. */
  method Deltas<K(==, !new)>(from: seq<K>, to: seq<K>) returns (deltas: map<K, int>)
    ensures IsDelta(deltas, from, to)
    ensures Total(deltas) == |to| - |from|
  {
    hide IsDelta, Total, CountOf;
    deltas := map[];
    NoDelta<K>();
    for i := 0 to |from|
      invariant IsDelta(deltas, from[..i], [])
      invariant Total(deltas) == -i
    {
      assert from[..i + 1] == from[..i] + [from[i]];
      DeltaDown(deltas, from[..i], from[i]);
      TotalOfUpdate(deltas, from[i], CountOf(deltas, from[i]) - 1);
      deltas := deltas[from[i] := CountOf(deltas, from[i]) - 1];
    }
    assert from[..|from|] == from;
    for j := 0 to |to|
      invariant IsDelta(deltas, from, to[..j])
      invariant Total(deltas) == j - |from|
    {
      assert to[..j + 1] == to[..j] + [to[j]];
      DeltaUp(deltas, from, to[..j], to[j]);
      TotalOfUpdate(deltas, to[j], CountOf(deltas, to[j]) + 1);
      deltas := deltas[to[j] := CountOf(deltas, to[j]) + 1];
    }
    assert to[..|to|] == to;
  }

  lemma NoDelta<K(!new)>()
    ensures IsDelta<K>(map[], [], []) && Total<K>(map[]) == 0
  {
  }

  /** The sum of the entries. */
  ghost function Total<K>(m: map<K, int>): int {
    if m.Keys == {} then 0
    else
      var k :| k in m;
      m[k] + Total(m - {k})
  }

  lemma {:induction false} TotalWithout<K>(m: map<K, int>, k: K)
    requires k in m
    ensures Total(m) == m[k] + Total(m - {k})
    decreases m
  {
    var first :| first in m && Total(m) == m[first] + Total(m - {first});
    if first != k {
      TotalWithout(m - {first}, k);
      TotalWithout(m - {k}, first);
      assert m - {first} - {k} == m - {k} - {first};
    }
  }

  lemma TotalOfUpdate<K>(m: map<K, int>, k: K, v: int)
    ensures Total(m[k := v]) == Total(m) - CountOf(m, k) + v
  {
    TotalWithout(m[k := v], k);
    assert m[k := v] - {k} == m - {k};
    if k in m {
      TotalWithout(m, k);
    } else {
      assert m - {k} == m;
    }
  }

  // -------------------------------------------------------------------- index

  /** The rows by topic: the last row of each topic, at the place where the topic first appears. */
  function IndexBy<T>(rows: seq<T>, topic: T -> string): (r: OrderedMap<T>)
    ensures r.Valid()
  {
    if rows == [] then OrderedMap([], map[])
    else
      var before, last := IndexBy(rows[..|rows| - 1], topic), rows[|rows| - 1];
      before.PutKeepsValid(topic(last), last);
      before.Put(topic(last), last)
  }

  method BuildIndex<T>(rows: seq<T>, topic: T -> string) returns (index: OrderedMap<T>)
    ensures index == IndexBy(rows, topic)
  {
    index := OrderedMap([], map[]);
    for i := 0 to |rows|
      invariant index == IndexBy(rows[..i], topic)
    {
      assert rows[..i + 1][..i] == rows[..i];
      index := index.Put(topic(rows[i]), rows[i]);
    }
    assert rows[..|rows|] == rows;
  }

  /** One row per topic. */
  predicate OnePerTopic<T>(rows: seq<T>, topic: T -> string) {
    forall i, j | 0 <= i < j < |rows| :: topic(rows[i]) != topic(rows[j])
  }

  lemma {:induction false} IndexHolds<T>(rows: seq<T>, topic: T -> string)
    ensures
      var r := IndexBy(rows, topic);
      && (forall k | k in r.at :: r.at[k] in rows && topic(r.at[k]) == k)
      && (forall m | m in rows :: topic(m) in r.at)
  {
    if rows != [] {
      IndexHolds(rows[..|rows| - 1], topic);
      LastSplit(rows);
    }
  }

  /** A row whose topic came before repeats it; another one does not. */
  lemma LastRepeats<T>(front: seq<T>, last: T, topic: T -> string)
    ensures topic(last) in IndexBy(front, topic).at <==> exists i :: 0 <= i < |front| && topic(front[i]) == topic(last)
  {
    IndexHolds(front, topic);
    if topic(last) in IndexBy(front, topic).at {
      var m := IndexBy(front, topic).at[topic(last)];
      var i :| 0 <= i < |front| && front[i] == m;
    }
    if i :| 0 <= i < |front| && topic(front[i]) == topic(last) {
      assert front[i] in front;
    }
  }

  lemma OnePerTopicGrows<T>(front: seq<T>, last: T, topic: T -> string)
    ensures OnePerTopic(front + [last], topic) <==>
            OnePerTopic(front, topic) && !exists i :: 0 <= i < |front| && topic(front[i]) == topic(last)
  {
    var rows := front + [last];
    assert forall i | 0 <= i < |front| :: rows[i] == front[i];
    assert rows[|front|] == last;
  }

  /** An index drops rows exactly when topics repeat, and keeps all of them in order otherwise. */
  lemma {:induction false} IndexLength<T>(rows: seq<T>, topic: T -> string)
    ensures |IndexBy(rows, topic).keys| <= |rows|
    ensures |IndexBy(rows, topic).keys| == |rows| <==> OnePerTopic(rows, topic)
    ensures OnePerTopic(rows, topic) ==> IndexBy(rows, topic).Values() == rows
  {
    hide OnePerTopic;
    if rows == [] {
      NothingRepeats(topic);
    } else {
      var front, last := rows[..|rows| - 1], rows[|rows| - 1];
      IndexLength(front, topic);
      LastSplit(rows);
      LastRepeats(front, last, topic);
      OnePerTopicGrows(front, last, topic);
      if topic(last) !in IndexBy(front, topic).at {
        PutAppends(IndexBy(front, topic), topic(last), last);
      }
    }
  }

  lemma NothingRepeats<T>(topic: T -> string)
    ensures OnePerTopic([], topic)
  {
  }

  lemma PutAppends<V>(m: OrderedMap<V>, k: string, v: V)
    requires m.Valid() && k !in m.at
    ensures m.Put(k, v).Valid() && m.Put(k, v).Values() == m.Values() + [v]
  {
    m.PutKeepsValid(k, v);
    forall i | 0 <= i < |m.keys| ensures m.Put(k, v).Values()[i] == m.Values()[i] {
      assert m.keys[i] in m.keys;
    }
  }

  /** The rows of an index stand under their own topics, each once. */
  ghost predicate WellIndexed<T(!new)>(m: OrderedMap<T>, topic: T -> string) {
    && m.Valid() && OnePerTopic(m.Values(), topic)
    && (forall x | x in m.Values() :: topic(x) in m.at && m.at[topic(x)] == x)
    && (forall k | k in m.at :: m.at[k] in m.Values() && topic(m.at[k]) == k)
  }

  lemma IndexIsWell<T(!new)>(rows: seq<T>, topic: T -> string)
    ensures WellIndexed(IndexBy(rows, topic), topic)
  {
    IndexHolds(rows, topic);
    var r := IndexBy(rows, topic);
    forall i | 0 <= i < |r.keys| ensures topic(r.Values()[i]) == r.keys[i] {
      assert r.keys[i] in r.keys;
    }
    forall k | k in r.at ensures r.at[k] in r.Values() {
      var i :| 0 <= i < |r.keys| && r.keys[i] == k;
      assert r.Values()[i] == r.at[k];
    }
  }

  // --------------------------------------------------------------- collecting

  /** The entries that a pass over the rows pushes. */
  function Collect<T, U>(rows: seq<T>, entry: T -> Option<U>): seq<U> {
    if rows == [] then []
    else Collect(rows[..|rows| - 1], entry) + match entry(rows[|rows| - 1]) case None => [] case Some(e) => [e]
  }

  lemma {:induction false} Collected<T, U>(rows: seq<T>, entry: T -> Option<U>)
    ensures forall e :: e in Collect(rows, entry) <==> exists m :: m in rows && entry(m) == Some(e)
  {
    if rows != [] {
      Collected(rows[..|rows| - 1], entry);
      LastSplit(rows);
    }
  }

  ghost function TopicsWith<T, U>(rows: seq<T>, topic: T -> string, entry: T -> Option<U>): set<string> {
    set m | m in rows && entry(m).Some? :: topic(m)
  }

  /** With one row per topic, a pass pushes as many entries as there are topics with one. */
  lemma {:induction false} CollectCounts<T, U>(rows: seq<T>, topic: T -> string, entry: T -> Option<U>)
    requires OnePerTopic(rows, topic)
    ensures |Collect(rows, entry)| == |TopicsWith(rows, topic, entry)|
  {
    if rows != [] {
      var front, last := rows[..|rows| - 1], rows[|rows| - 1];
      CollectCounts(front, topic, entry);
      LastSplit(rows);
      assert topic(last) !in TopicsWith(front, topic, entry);
      assert TopicsWith(rows, topic, entry) == TopicsWith(front, topic, entry) + if entry(last).Some? then {topic(last)} else {};
    }
  }

  // --------------------------------------------------------------- comparison

  /** The canonical content digest. */
  type Digest = Memory -> string

  function TopicKey(): Memory -> string {
    (m: Memory) => m.topicKey
  }

  function StripPeriod(m: Memory): Memory {
    if m.scope.Company? then m.(scope := m.scope.(period := "")) else m
  }

  /** Different content, apart from the period, status, successor or references. */
  predicate Differ(h: Digest, a: Memory, b: Memory) {
    h(StripPeriod(a)) != h(StripPeriod(b)) || a.status != b.status || a.supersedesId != b.supersedesId ||
    multiset(a.evidenceRefs) != multiset(b.evidenceRefs) || multiset(a.ruleRefs) != multiset(b.ruleRefs)
  }

  method ChainsDiffer(h: Digest, a: Memory, b: Memory) returns (differ: bool)
    ensures differ == Differ(h, a, b)
  {
    if h(StripPeriod(a)) != h(StripPeriod(b)) {
      return true;
    }
    if a.status != b.status {
      return true;
    }
    if a.supersedesId != b.supersedesId {
      return true;
    }
    var evidence := RefSetsEqual(a.evidenceRefs, b.evidenceRefs);
    if !evidence {
      return true;
    }
    var rules := RefSetsEqual(a.ruleRefs, b.ruleRefs);
    differ := !rules;
  }

  function RefOf(m: Memory): ChainRef {
    ChainRef(m.topicKey, m.id, m.kind, m.status, m.title)
  }

  /** A chain that the other period does not have. */
  function OnlyHere(other: map<string, Memory>): Memory -> Option<ChainRef> {
    (m: Memory) => if m.topicKey in other then None else Some(RefOf(m))
  }

  function ChangedFrom(h: Digest, from: map<string, Memory>): Memory -> Option<ChainChange> {
    (m: Memory) =>
      if m.topicKey in from && Differ(h, from[m.topicKey], m)
      then Some(ChainChange(m.topicKey, from[m.topicKey].id, m.id, m.kind, m.title)) else None
  }

  function SameAs(h: Digest, from: map<string, Memory>): Memory -> Option<string> {
    (m: Memory) => if m.topicKey in from && !Differ(h, from[m.topicKey], m) then Some(m.topicKey) else None
  }

  function MovedFrom(from: map<string, Memory>): Memory -> Option<StatusChange> {
    (m: Memory) =>
      if m.topicKey in from && from[m.topicKey].status != m.status
      then Some(StatusChange(m.topicKey, from[m.topicKey].id, m.id, from[m.topicKey].status, m.status)) else None
  }

  function RefKey(): ChainRef -> Key {
    (c: ChainRef) => [S(c.topicKey), S(c.memoryId)]
  }

  function ChangeKey(): ChainChange -> Key {
    (c: ChainChange) => [S(c.topicKey), S(c.fromId), S(c.toId)]
  }

  function MoveKey(): StatusChange -> Key {
    (c: StatusChange) => [S(c.topicKey), S(c.fromId), S(c.toId)]
  }

  function TextKey(): string -> Key {
    (s: string) => [S(s)]
  }

  function ChainsOf(h: Digest, from: seq<Memory>, to: seq<Memory>): Chains {
    var f, t := IndexBy(from, TopicKey()), IndexBy(to, TopicKey());
    Chains(StableSorted(Collect(t.Values(), OnlyHere(f.at)), RefKey()),
           StableSorted(Collect(f.Values(), OnlyHere(t.at)), RefKey()),
           StableSorted(Collect(t.Values(), ChangedFrom(h, f.at)), ChangeKey()),
           |Collect(t.Values(), SameAs(h, f.at))|)
  }

  function MovesOf(from: seq<Memory>, to: seq<Memory>): seq<StatusChange> {
    var f, t := IndexBy(from, TopicKey()), IndexBy(to, TopicKey());
    StableSorted(Collect(t.Values(), MovedFrom(f.at)), MoveKey())
  }

  function ItemTopic(): PendingItem -> string {
    (i: PendingItem) => i.topicKey
  }

  function PendingOnlyHere(other: map<string, PendingItem>): PendingItem -> Option<string> {
    (i: PendingItem) => if i.topicKey in other then None else Some(i.memoryId)
  }

  function PendingOf(from: seq<PendingItem>, to: seq<PendingItem>): PendingDelta {
    var f, t := IndexBy(from, ItemTopic()), IndexBy(to, ItemTopic());
    PendingDelta(|from|, |to|, |to| - |from|,
                 StableSorted(Collect(t.Values(), PendingOnlyHere(f.at)), TextKey()),
                 StableSorted(Collect(f.Values(), PendingOnlyHere(t.at)), TextKey()))
  }

  function KindOf(): Memory -> string {
    (m: Memory) => m.kind
  }

  function StatusOf(): Memory -> Status {
    (m: Memory) => m.status
  }

  function Kinds(rows: seq<Memory>): seq<string> {
    Mapped(rows, KindOf())
  }

  function Statuses(rows: seq<Memory>): seq<Status> {
    Mapped(rows, StatusOf())
  }

  /** The comparison of two periods, without its narrative and the labels passed through. */
  ghost predicate IsComparison(h: Digest, from: seq<Memory>, to: seq<Memory>, fromPending: seq<PendingItem>,
                               toPending: seq<PendingItem>, c: Comparison)
  {
    && c.fromTotal == |from| && c.toTotal == |to| && c.delta == |to| - |from|
    && IsDelta(c.byKindDelta, Kinds(from), Kinds(to)) && IsDelta(c.byStatusDelta, Statuses(from), Statuses(to))
    && c.chains == ChainsOf(h, from, to) && c.statusChanges == MovesOf(from, to)
    && c.pendingItems == PendingOf(fromPending, toPending)
  }

  /** The pass over the chains of the later period. */
  method MatchChains(h: Digest, rows: seq<Memory>, from: map<string, Memory>)
    returns (added: seq<ChainRef>, changed: seq<ChainChange>, same: nat, moves: seq<StatusChange>)
    ensures added == Collect(rows, OnlyHere(from)) && changed == Collect(rows, ChangedFrom(h, from))
    ensures same == |Collect(rows, SameAs(h, from))| && moves == Collect(rows, MovedFrom(from))
  {
    added, changed, same, moves := [], [], 0, [];
    for i := 0 to |rows|
      invariant added == Collect(rows[..i], OnlyHere(from)) && changed == Collect(rows[..i], ChangedFrom(h, from))
      invariant same == |Collect(rows[..i], SameAs(h, from))| && moves == Collect(rows[..i], MovedFrom(from))
    {
      assert rows[..i + 1][..i] == rows[..i];
      var m := rows[i];
      if m.topicKey !in from {
        added := added + [RefOf(m)];
        continue;
      }
      var before := from[m.topicKey];
      var differ := ChainsDiffer(h, before, m);
      if differ {
        changed := changed + [ChainChange(m.topicKey, before.id, m.id, m.kind, m.title)];
      } else {
        same := same + 1;
      }
      if before.status != m.status {
        moves := moves + [StatusChange(m.topicKey, before.id, m.id, before.status, m.status)];
      }
    }
    assert rows[..|rows|] == rows;
  }

  /** A pass that keeps what the other side does not have. */
  method CollectMissing<T, U>(rows: seq<T>, entry: T -> Option<U>) returns (missing: seq<U>)
    ensures missing == Collect(rows, entry)
  {
    missing := [];
    for i := 0 to |rows|
      invariant missing == Collect(rows[..i], entry)
    {
      assert rows[..i + 1][..i] == rows[..i];
      var e := entry(rows[i]);
      if e.Some? {
        missing := missing + [e.value];
      }
    }
    assert rows[..|rows|] == rows;
  }

  method ComparePending(from: seq<PendingItem>, to: seq<PendingItem>) returns (d: PendingDelta)
    ensures d == PendingOf(from, to)
  {
    var f := BuildIndex(from, ItemTopic());
    var t := BuildIndex(to, ItemTopic());
    var added := CollectMissing(t.Values(), PendingOnlyHere(f.at));
    var resolved := CollectMissing(f.Values(), PendingOnlyHere(t.at));
    d := PendingDelta(|from|, |to|, |to| - |from|, StableSorted(added, TextKey()), StableSorted(resolved, TextKey()));
  }

  method ComputePeriodComparison(h: Digest, from: seq<Memory>, to: seq<Memory>, fromPending: seq<PendingItem>,
                                 toPending: seq<PendingItem>)
    returns (c: Comparison)
    ensures IsComparison(h, from, to, fromPending, toPending, c)
    ensures Total(c.byKindDelta) == c.delta && Total(c.byStatusDelta) == c.delta
  {
    hide Collect, StableSorted, Total, Mapped, IndexBy, CountOf, Difference;
    var f := BuildIndex(from, TopicKey());
    var t := BuildIndex(to, TopicKey());
    var kinds := Deltas(Kinds(from), Kinds(to));
    var statuses := Deltas(Statuses(from), Statuses(to));
    var pending := ComparePending(fromPending, toPending);
    var added, changed, same, moves := MatchChains(h, t.Values(), f.at);
    var removed := CollectMissing(f.Values(), OnlyHere(t.at));
    var chains := Chains(StableSorted(added, RefKey()), StableSorted(removed, RefKey()), StableSorted(changed, ChangeKey()), same);
    c := Comparison(|from|, |to|, |to| - |from|, kinds, statuses, chains, StableSorted(moves, MoveKey()), pending);
  }

  // ------------------------------------------------------------- conservation

  /** The chains of each period fall into exactly one list each. */
  lemma ChainsAreConserved(h: Digest, from: seq<Memory>, to: seq<Memory>)
    ensures
      var c := ChainsOf(h, from, to);
      && |c.added| + |c.changed| + c.unchangedCount == |IndexBy(to, TopicKey()).keys|
      && |c.removed| + |c.changed| + c.unchangedCount == |IndexBy(from, TopicKey()).keys|
  {
    hide Collect, StableSorted, IndexBy, TopicsWith, Sorted;
    var f, t := IndexBy(from, TopicKey()), IndexBy(to, TopicKey());
    IndexIsWell(from, TopicKey());
    IndexIsWell(to, TopicKey());
    PartitionCounts(h, t, f.at);
    OnlyHereCounts(f, t.at);
    KeysCount(f);
    KeysCount(t);
    SplitCounts(f.at.Keys, t.at.Keys);
    assert t.at.Keys * f.at.Keys == f.at.Keys * t.at.Keys;
    SortKeepsRows(Collect(t.Values(), OnlyHere(f.at)), RefKey());
    SortKeepsRows(Collect(f.Values(), OnlyHere(t.at)), RefKey());
    SortKeepsRows(Collect(t.Values(), ChangedFrom(h, f.at)), ChangeKey());
  }

  /** The lists of a period add up to its total exactly when each of its topics has one row. */
  lemma TotalsAreConservedIff(h: Digest, from: seq<Memory>, to: seq<Memory>)
    ensures
      var c := ChainsOf(h, from, to);
      && (|c.added| + |c.changed| + c.unchangedCount == |to| <==> OnePerTopic(to, TopicKey()))
      && (|c.removed| + |c.changed| + c.unchangedCount == |from| <==> OnePerTopic(from, TopicKey()))
  {
    ChainsAreConserved(h, from, to);
    IndexLength(from, TopicKey());
    IndexLength(to, TopicKey());
  }

  lemma OnlyHereCounts(m: OrderedMap<Memory>, other: map<string, Memory>)
    requires WellIndexed(m, TopicKey())
    ensures |Collect(m.Values(), OnlyHere(other))| == |m.at.Keys - other.Keys|
  {
    hide Collect;
    CollectCounts(m.Values(), TopicKey(), OnlyHere(other));
    forall k | k in m.at.Keys - other.Keys ensures k in TopicsWith(m.Values(), TopicKey(), OnlyHere(other)) {
      assert m.at[k] in m.Values() && OnlyHere(other)(m.at[k]).Some?;
    }
    assert TopicsWith(m.Values(), TopicKey(), OnlyHere(other)) == m.at.Keys - other.Keys;
  }

  lemma PartitionCounts(h: Digest, m: OrderedMap<Memory>, other: map<string, Memory>)
    requires WellIndexed(m, TopicKey())
    ensures |Collect(m.Values(), ChangedFrom(h, other))| + |Collect(m.Values(), SameAs(h, other))| == |m.at.Keys * other.Keys|
    ensures |Collect(m.Values(), OnlyHere(other))| + |m.at.Keys * other.Keys| == |m.at.Keys|
  {
    hide Collect, TopicsWith;
    OnlyHereCounts(m, other);
    SplitCounts(m.at.Keys, other.Keys);
    CollectCounts(m.Values(), TopicKey(), ChangedFrom(h, other));
    CollectCounts(m.Values(), TopicKey(), SameAs(h, other));
    CommonTopics(h, m, other);
  }

  lemma CommonTopics(h: Digest, m: OrderedMap<Memory>, other: map<string, Memory>)
    requires WellIndexed(m, TopicKey())
    ensures
      var changed := TopicsWith(m.Values(), TopicKey(), ChangedFrom(h, other));
      var same := TopicsWith(m.Values(), TopicKey(), SameAs(h, other));
      |changed| + |same| == |m.at.Keys * other.Keys|
  {
    hide Differ, TopicsWith, OnePerTopic;
    var changed := TopicsWith(m.Values(), TopicKey(), ChangedFrom(h, other));
    var same := TopicsWith(m.Values(), TopicKey(), SameAs(h, other));
    var differs := k => k in m.at && k in other && Differ(h, other[k], m.at[k]);
    forall k ensures k in changed <==> k in m.at.Keys * other.Keys && differs(k)
             ensures k in same <==> k in m.at.Keys * other.Keys && !differs(k)
    {
      CommonTopic(h, m, other, k);
    }
    SplitBy(m.at.Keys * other.Keys, changed, same, differs);
  }

  lemma SplitBy<T(!new)>(all: set<T>, a: set<T>, b: set<T>, p: T -> bool)
    requires forall x :: x in a <==> x in all && p(x)
    requires forall x :: x in b <==> x in all && !p(x)
    ensures |a| + |b| == |all|
  {
    assert a + b == all && a !! b;
  }

  lemma CommonTopic(h: Digest, m: OrderedMap<Memory>, other: map<string, Memory>, k: string)
    requires WellIndexed(m, TopicKey())
    ensures k in TopicsWith(m.Values(), TopicKey(), ChangedFrom(h, other)) <==> k in m.at && k in other && Differ(h, other[k], m.at[k])
    ensures k in TopicsWith(m.Values(), TopicKey(), SameAs(h, other)) <==> k in m.at && k in other && !Differ(h, other[k], m.at[k])
  {
    hide Differ, TopicsWith, OnePerTopic;
    TopicWithEntry(m, ChangedFrom(h, other), k);
    TopicWithEntry(m, SameAs(h, other), k);
  }

  lemma TopicWithEntry<U>(m: OrderedMap<Memory>, entry: Memory -> Option<U>, k: string)
    requires WellIndexed(m, TopicKey())
    ensures k in TopicsWith(m.Values(), TopicKey(), entry) <==> k in m.at && entry(m.at[k]).Some?
  {
  }

  lemma KeysCount<V>(m: OrderedMap<V>)
    requires m.Valid()
    ensures |m.keys| == |m.at.Keys|
  {
    DistinctCount(m.keys);
    assert (set k | k in m.keys) == m.at.Keys;
  }

  lemma {:induction false} DistinctCount<T>(s: seq<T>)
    requires Distinct(s)
    ensures |set x | x in s| == |s|
  {
    if s != [] {
      var front, last := s[..|s| - 1], s[|s| - 1];
      DistinctCount(front);
      LastSplit(s);
      assert (set x | x in s) == (set x | x in front) + {last};
      assert last !in front;
    }
  }

  lemma SplitCounts<T>(a: set<T>, b: set<T>)
    ensures |a - b| + |a * b| == |a|
  {
    assert a == (a - b) + (a * b);
  }

  /** What is pending on one side only, counted by topics. */
  lemma PendingIsConserved(from: seq<PendingItem>, to: seq<PendingItem>)
    ensures
      var d := PendingOf(from, to);
      && |d.addedIds| - |d.resolvedIds| == |IndexBy(to, ItemTopic()).keys| - |IndexBy(from, ItemTopic()).keys|
      && (OnePerTopic(from, ItemTopic()) && OnePerTopic(to, ItemTopic()) ==> |d.addedIds| - |d.resolvedIds| == d.delta)
  {
    hide Collect, StableSorted, IndexBy, Sorted;
    var f, t := IndexBy(from, ItemTopic()), IndexBy(to, ItemTopic());
    IndexIsWell(from, ItemTopic());
    IndexIsWell(to, ItemTopic());
    PendingOnlyHereCounts(f, t.at);
    PendingOnlyHereCounts(t, f.at);
    KeysCount(f);
    KeysCount(t);
    SplitCounts(f.at.Keys, t.at.Keys);
    SplitCounts(t.at.Keys, f.at.Keys);
    assert t.at.Keys * f.at.Keys == f.at.Keys * t.at.Keys;
    SortKeepsRows(Collect(t.Values(), PendingOnlyHere(f.at)), TextKey());
    SortKeepsRows(Collect(f.Values(), PendingOnlyHere(t.at)), TextKey());
    IndexLength(from, ItemTopic());
    IndexLength(to, ItemTopic());
  }

  lemma PendingOnlyHereCounts(m: OrderedMap<PendingItem>, other: map<string, PendingItem>)
    requires WellIndexed(m, ItemTopic())
    ensures |Collect(m.Values(), PendingOnlyHere(other))| == |m.at.Keys - other.Keys|
  {
    hide Collect;
    CollectCounts(m.Values(), ItemTopic(), PendingOnlyHere(other));
    assert TopicsWith(m.Values(), ItemTopic(), PendingOnlyHere(other)) == m.at.Keys - other.Keys;
  }

  // --------------------------------------------------------- moves and swaps

  function ChangeTopic(): ChainChange -> string {
    (c: ChainChange) => c.topicKey
  }

  /** The changed chains: one entry for each topic of both periods whose rows differ. */
  lemma ChangedIff(h: Digest, from: seq<Memory>, to: seq<Memory>, c: ChainChange)
    ensures
      var f, t := IndexBy(from, TopicKey()).at, IndexBy(to, TopicKey()).at;
      c in ChainsOf(h, from, to).changed <==>
      c.topicKey in f && c.topicKey in t && Differ(h, f[c.topicKey], t[c.topicKey]) &&
      c == ChainChange(c.topicKey, f[c.topicKey].id, t[c.topicKey].id, t[c.topicKey].kind, t[c.topicKey].title)
  {
    hide Collect, StableSorted, IndexBy, Sorted, Differ, OnePerTopic;
    var f, t := IndexBy(from, TopicKey()), IndexBy(to, TopicKey());
    IndexIsWell(to, TopicKey());
    Collected(t.Values(), ChangedFrom(h, f.at));
    SortKeepsRows(Collect(t.Values(), ChangedFrom(h, f.at)), ChangeKey());
    if c.topicKey in f.at && c.topicKey in t.at && Differ(h, f.at[c.topicKey], t.at[c.topicKey]) {
      assert t.at[c.topicKey] in t.Values();
    }
  }

  /** The status changes: one entry for each topic of both periods whose rows differ in status. */
  lemma MovedIff(from: seq<Memory>, to: seq<Memory>, s: StatusChange)
    ensures
      var f, t := IndexBy(from, TopicKey()).at, IndexBy(to, TopicKey()).at;
      s in MovesOf(from, to) <==>
      s.topicKey in f && s.topicKey in t && f[s.topicKey].status != t[s.topicKey].status &&
      s == StatusChange(s.topicKey, f[s.topicKey].id, t[s.topicKey].id, f[s.topicKey].status, t[s.topicKey].status)
  {
    hide Collect, StableSorted, IndexBy, Sorted, OnePerTopic;
    var f, t := IndexBy(from, TopicKey()), IndexBy(to, TopicKey());
    IndexIsWell(to, TopicKey());
    Collected(t.Values(), MovedFrom(f.at));
    SortKeepsRows(Collect(t.Values(), MovedFrom(f.at)), MoveKey());
    if s.topicKey in f.at && s.topicKey in t.at && f.at[s.topicKey].status != t.at[s.topicKey].status {
      assert t.at[s.topicKey] in t.Values();
    }
  }

  /** Every status change is a change of its chain. */
  lemma StatusChangesAreChanges(h: Digest, from: seq<Memory>, to: seq<Memory>, s: StatusChange)
    requires s in MovesOf(from, to)
    ensures exists c :: c in ChainsOf(h, from, to).changed && c.topicKey == s.topicKey && c.fromId == s.fromId && c.toId == s.toId
  {
    hide IndexBy;
    MovedIff(from, to, s);
    var f, t := IndexBy(from, TopicKey()).at, IndexBy(to, TopicKey()).at;
    var c := ChainChange(s.topicKey, s.fromId, s.toId, t[s.topicKey].kind, t[s.topicKey].title);
    ChangedIff(h, from, to, c);
  }

  /** One entry per topic: no entry repeats, and entries of one topic are the same. */
  lemma OnePerTopicIff<T>(s: seq<T>, topic: T -> string)
    ensures OnePerTopic(s, topic) <==> Distinct(s) && forall x, y | x in s && y in s && topic(x) == topic(y) :: x == y
  {
    if OnePerTopic(s, topic) {
      forall x, y | x in s && y in s && topic(x) == topic(y) ensures x == y {
        var i :| 0 <= i < |s| && s[i] == x;
        var j :| 0 <= j < |s| && s[j] == y;
      }
    }
  }

  lemma OnePerTopicCarriesOver<T>(a: seq<T>, b: seq<T>, topic: T -> string)
    requires multiset(a) == multiset(b) && OnePerTopic(a, topic)
    ensures OnePerTopic(b, topic)
  {
    OnePerTopicIff(a, topic);
    OnePerTopicIff(b, topic);
    SameMultisetDistinct(a, b);
    forall x | x in b ensures x in a {
      assert x in multiset(b);
    }
  }

  ghost predicate Carries<T(!new), U>(topic: T -> string, entry: T -> Option<U>, entryTopic: U -> string) {
    forall m: T :: entry(m).Some? ==> entryTopic(entry(m).value) == topic(m)
  }

  lemma Origin<T, U>(rows: seq<T>, entry: T -> Option<U>, e: U) returns (m: T)
    requires e in Collect(rows, entry)
    ensures m in rows && entry(m) == Some(e)
  {
    Collected(rows, entry);
    m :| m in rows && entry(m) == Some(e);
  }

  lemma {:induction false} CollectedOnce<T(!new), U>(rows: seq<T>, topic: T -> string, entry: T -> Option<U>, entryTopic: U -> string)
    requires OnePerTopic(rows, topic) && Carries(topic, entry, entryTopic)
    ensures OnePerTopic(Collect(rows, entry), entryTopic)
  {
    if rows != [] {
      var front, last := rows[..|rows| - 1], rows[|rows| - 1];
      CollectedOnce(front, topic, entry, entryTopic);
      forall e | e in Collect(front, entry) ensures entryTopic(e) != topic(last) {
        var m := Origin(front, entry, e);
        var i :| 0 <= i < |front| && front[i] == m;
        assert topic(rows[i]) != topic(rows[|rows| - 1]);
      }
    }
  }

  /** Sorted topics without repetition are fixed by which topics they are. */
  lemma SortedTopicsAreFixed(a: seq<string>, b: seq<string>)
    requires Sorted(a, TextKey()) && Sorted(b, TextKey()) && Distinct(a) && Distinct(b)
    requires forall x :: x in a <==> x in b
    ensures a == b
  {
    SameElementsSameLength(a, b);
    forall x, y | x in a && y in a && TextKey()(x) == TextKey()(y) ensures x == y {
      assert TextKey()(x)[0] == TextKey()(y)[0];
    }
    SortIsDetermined(a, b, TextKey());
  }

  lemma ChangedTopics(h: Digest, from: seq<Memory>, to: seq<Memory>) returns (topics: seq<string>)
    ensures topics == Mapped(ChainsOf(h, from, to).changed, ChangeTopic())
    ensures Sorted(topics, TextKey()) && Distinct(topics)
    ensures
      var f, t := IndexBy(from, TopicKey()).at, IndexBy(to, TopicKey()).at;
      forall k :: k in topics <==> k in f && k in t && Differ(h, f[k], t[k])
  {
    hide Collect, StableSorted, IndexBy, Differ, Mapped, KeyLess, KeyLessEq, WellIndexed, Carries, ChangeKey, TextKey, OnePerTopic, ChangedFrom;
    var f, t := IndexBy(from, TopicKey()), IndexBy(to, TopicKey());
    var collected, changed := Collect(t.Values(), ChangedFrom(h, f.at)), ChainsOf(h, from, to).changed;
    topics := Mapped(changed, ChangeTopic());
    IndexIsWell(to, TopicKey());
    ChangesOnce(h, t, f.at);
    SortsStably(collected, ChangeKey());
    OnePerTopicCarriesOver(collected, changed, ChangeTopic());
    TopicsDiffer(changed);
    forall i, j | 0 <= i < j < |topics| ensures KeyLessEq(TextKey()(topics[i]), TextKey()(topics[j])) {
      ChangeOrder(changed[i], changed[j]);
    }
    forall c | c in changed ensures c.topicKey in topics {
      var i :| 0 <= i < |changed| && changed[i] == c;
      assert topics[i] == c.topicKey;
    }
    forall k ensures k in topics <==> k in f.at && k in t.at && Differ(h, f.at[k], t.at[k]) {
      if k in topics {
        var i :| 0 <= i < |topics| && topics[i] == k;
        assert changed[i] in changed;
        ChangedIff(h, from, to, changed[i]);
      } else if k in f.at && k in t.at {
        var c := ChainChange(k, f.at[k].id, t.at[k].id, t.at[k].kind, t.at[k].title);
        ChangedIff(h, from, to, c);
      }
    }
  }

  lemma ChangesOnce(h: Digest, m: OrderedMap<Memory>, other: map<string, Memory>)
    requires WellIndexed(m, TopicKey())
    ensures OnePerTopic(Collect(m.Values(), ChangedFrom(h, other)), ChangeTopic())
  {
    hide Collect, OnePerTopic, Differ;
    CollectedOnce(m.Values(), TopicKey(), ChangedFrom(h, other), ChangeTopic());
  }

  lemma TopicsDiffer(changed: seq<ChainChange>)
    requires OnePerTopic(changed, ChangeTopic())
    ensures Distinct(Mapped(changed, ChangeTopic()))
  {
  }

  lemma ChangeOrder(a: ChainChange, b: ChainChange)
    requires KeyLessEq(ChangeKey()(a), ChangeKey()(b))
    ensures KeyLessEq(TextKey()(a.topicKey), TextKey()(b.topicKey))
  {
    var x, y := TextKey()(a.topicKey), TextKey()(b.topicKey);
    assert a.topicKey == b.topicKey ==> x == y;
    assert KeyLess(x, y) <==> PartLess(S(a.topicKey), S(b.topicKey)) || (a.topicKey == b.topicKey && KeyLess(x[1..], y[1..]));
    if ChangeKey()(a) == ChangeKey()(b) {
      assert ChangeKey()(a)[0] == ChangeKey()(b)[0];
    }
  }

  function MoveTopic(): StatusChange -> string {
    (c: StatusChange) => c.topicKey
  }

  lemma MovedTopics(from: seq<Memory>, to: seq<Memory>) returns (topics: seq<string>)
    ensures topics == Mapped(MovesOf(from, to), MoveTopic())
    ensures Sorted(topics, TextKey()) && Distinct(topics)
    ensures
      var f, t := IndexBy(from, TopicKey()).at, IndexBy(to, TopicKey()).at;
      forall k :: k in topics <==> k in f && k in t && f[k].status != t[k].status
  {
    hide Collect, StableSorted, IndexBy, Mapped, KeyLess, KeyLessEq, WellIndexed, Carries, MoveKey, TextKey, OnePerTopic, MovedFrom;
    var f, t := IndexBy(from, TopicKey()), IndexBy(to, TopicKey());
    var collected, moves := Collect(t.Values(), MovedFrom(f.at)), MovesOf(from, to);
    topics := Mapped(moves, MoveTopic());
    IndexIsWell(to, TopicKey());
    MovesOnce(t, f.at);
    SortsStably(collected, MoveKey());
    OnePerTopicCarriesOver(collected, moves, MoveTopic());
    MoveTopicsDiffer(moves);
    forall i, j | 0 <= i < j < |topics| ensures KeyLessEq(TextKey()(topics[i]), TextKey()(topics[j])) {
      MoveOrder(moves[i], moves[j]);
    }
    forall s | s in moves ensures s.topicKey in topics {
      var i :| 0 <= i < |moves| && moves[i] == s;
      assert topics[i] == s.topicKey;
    }
    forall k ensures k in topics <==> k in f.at && k in t.at && f.at[k].status != t.at[k].status {
      if k in topics {
        var i :| 0 <= i < |topics| && topics[i] == k;
        assert moves[i] in moves;
        MovedIff(from, to, moves[i]);
      } else if k in f.at && k in t.at {
        MovedIff(from, to, StatusChange(k, f.at[k].id, t.at[k].id, f.at[k].status, t.at[k].status));
      }
    }
  }

  lemma MovesOnce(m: OrderedMap<Memory>, other: map<string, Memory>)
    requires WellIndexed(m, TopicKey())
    ensures OnePerTopic(Collect(m.Values(), MovedFrom(other)), MoveTopic())
  {
    hide Collect, OnePerTopic;
    CollectedOnce(m.Values(), TopicKey(), MovedFrom(other), MoveTopic());
  }

  lemma MoveTopicsDiffer(moves: seq<StatusChange>)
    requires OnePerTopic(moves, MoveTopic())
    ensures Distinct(Mapped(moves, MoveTopic()))
  {
  }

  lemma MoveOrder(a: StatusChange, b: StatusChange)
    requires KeyLessEq(MoveKey()(a), MoveKey()(b))
    ensures KeyLessEq(TextKey()(a.topicKey), TextKey()(b.topicKey))
  {
    ChangeOrder(ChainChange(a.topicKey, a.fromId, a.toId, "", ""), ChainChange(b.topicKey, b.fromId, b.toId, "", ""));
  }

  /** A status change seen from the other period. */
  function Mirror(): StatusChange -> StatusChange {
    (s: StatusChange) => StatusChange(s.topicKey, s.toId, s.fromId, s.toStatus, s.fromStatus)
  }

  lemma MovesMirror(from: seq<Memory>, to: seq<Memory>)
    ensures MovesOf(to, from) == Mapped(MovesOf(from, to), Mirror())
  {
    hide MovesOf, IndexBy, Sorted, Distinct;
    var there := MovedTopics(from, to);
    var back := MovedTopics(to, from);
    SortedTopicsAreFixed(back, there);
    var a, b := MovesOf(from, to), MovesOf(to, from);
    assert |a| == |there| == |back| == |b|;
    forall i | 0 <= i < |b| ensures b[i] == Mirror()(a[i]) {
      assert there[i] == a[i].topicKey && back[i] == b[i].topicKey;
      assert a[i] in a && b[i] in b;
      MovedIff(from, to, a[i]);
      MovedIff(to, from, b[i]);
    }
  }

  /** Swapping the periods swaps what is new with what is removed, keeps the changed topics and the number of
      unchanged chains, mirrors every status change, and turns every difference around. */
  lemma SwappingPeriods(h: Digest, from: seq<Memory>, to: seq<Memory>, fromPending: seq<PendingItem>, toPending: seq<PendingItem>,
                        c: Comparison, d: Comparison)
    requires IsComparison(h, from, to, fromPending, toPending, c) && IsComparison(h, to, from, toPending, fromPending, d)
    ensures d.fromTotal == c.toTotal && d.toTotal == c.fromTotal && d.delta == -c.delta
    ensures d.chains.added == c.chains.removed && d.chains.removed == c.chains.added
    ensures Mapped(d.chains.changed, ChangeTopic()) == Mapped(c.chains.changed, ChangeTopic())
    ensures d.chains.unchangedCount == c.chains.unchangedCount
    ensures d.statusChanges == Mapped(c.statusChanges, Mirror())
    ensures d.pendingItems == PendingDelta(c.pendingItems.to, c.pendingItems.from, -c.pendingItems.delta,
                                           c.pendingItems.resolvedIds, c.pendingItems.addedIds)
    ensures forall k :: CountOf(d.byKindDelta, k) == -CountOf(c.byKindDelta, k)
    ensures forall s :: CountOf(d.byStatusDelta, s) == -CountOf(c.byStatusDelta, s)
  {
    hide Collect, StableSorted, IndexBy, Mapped, Sorted, Differ, MovesOf;
    MovesMirror(from, to);
    var there := ChangedTopics(h, from, to);
    var back := ChangedTopics(h, to, from);
    forall a, b ensures Differ(h, a, b) == Differ(h, b, a) {
      DifferIsSymmetric(h, a, b);
    }
    SortedTopicsAreFixed(back, there);
    ChainsAreConserved(h, from, to);
    ChainsAreConserved(h, to, from);
    assert |there| == |c.chains.changed| && |back| == |d.chains.changed|;
  }

  lemma DifferIsSymmetric(h: Digest, a: Memory, b: Memory)
    ensures Differ(h, a, b) == Differ(h, b, a)
  {
  }

  // -------------------------------------------------------------- input order

  lemma {:induction false} CollectConcat<T, U>(a: seq<T>, b: seq<T>, entry: T -> Option<U>)
    ensures Collect(a + b, entry) == Collect(a, entry) + Collect(b, entry)
  {
    if b == [] {
      assert a + b == a;
    } else {
      assert (a + b)[..|a + b| - 1] == a + b[..|b| - 1];
      CollectConcat(a, b[..|b| - 1], entry);
    }
  }

  lemma CollectWithout<T, U>(s: seq<T>, k: nat, entry: T -> Option<U>)
    requires k < |s|
    ensures multiset(s[..k] + s[k + 1..]) == multiset(s) - multiset{s[k]}
    ensures multiset(Collect(s, entry)) == multiset(Collect(s[..k] + s[k + 1..], entry)) + multiset(Collect([s[k]], entry))
  {
    hide Collect;
    var front, back := s[..k], s[k + 1..];
    assert s == front + [s[k]] + back;
    CollectConcat(front + [s[k]], back, entry);
    CollectConcat(front, [s[k]], entry);
    CollectConcat(front, back, entry);
  }

  lemma {:induction false} CollectMultisets<T, U>(a: seq<T>, b: seq<T>, entry: T -> Option<U>)
    requires multiset(a) == multiset(b)
    ensures multiset(Collect(a, entry)) == multiset(Collect(b, entry))
    decreases |a|
  {
    hide Collect;
    assert |multiset(a)| == |a| && |multiset(b)| == |b|;
    if a == [] {
      assert b == [];
    } else {
      assert a[0] in multiset(b);
      var k :| 0 <= k < |b| && b[k] == a[0];
      CollectWithout(a, 0, entry);
      CollectWithout(b, k, entry);
      CollectMultisets(a[..0] + a[0 + 1..], b[..k] + b[k + 1..], entry);
    }
  }

  /** With one row per topic, what a pass collects and sorts does not depend on the order of the rows. */
  lemma CollectIgnoresOrder<T(!new), U(!new)>(a: seq<T>, b: seq<T>, topic: T -> string, entry: T -> Option<U>,
                                              entryTopic: U -> string, key: U -> Key)
    requires multiset(a) == multiset(b) && OnePerTopic(a, topic) && Carries(topic, entry, entryTopic)
    requires forall x: U, y: U :: key(x) == key(y) ==> entryTopic(x) == entryTopic(y)
    ensures StableSorted(Collect(a, entry), key) == StableSorted(Collect(b, entry), key)
  {
    hide Collect, StableSorted, OnePerTopic;
    CollectMultisets(a, b, entry);
    CollectedOnce(a, topic, entry, entryTopic);
    OnePerTopicIff(Collect(a, entry), entryTopic);
    OrderDoesNotMatter(Collect(a, entry), Collect(b, entry), key);
  }

  lemma IndexIgnoresOrder<T(!new)>(a: seq<T>, b: seq<T>, topic: T -> string)
    requires multiset(a) == multiset(b) && OnePerTopic(a, topic)
    ensures IndexBy(a, topic).at == IndexBy(b, topic).at
    ensures IndexBy(a, topic).Values() == a && IndexBy(b, topic).Values() == b
  {
    hide IndexBy, OnePerTopic, Distinct;
    OnePerTopicCarriesOver(a, b, topic);
    IndexHolds(a, topic);
    IndexHolds(b, topic);
    IndexLength(a, topic);
    IndexLength(b, topic);
    OnePerTopicIff(a, topic);
    var x, y := IndexBy(a, topic).at, IndexBy(b, topic).at;
    SameMembers(a, b);
    assert x.Keys == y.Keys;
    forall k | k in x ensures x[k] == y[k] {
      assert y[k] in a;
    }
  }

  function RefTopic(): ChainRef -> string {
    (c: ChainRef) => c.topicKey
  }

  lemma ChainsIgnoreOrder(h: Digest, from: seq<Memory>, to: seq<Memory>, from2: seq<Memory>, to2: seq<Memory>)
    requires multiset(from) == multiset(from2) && multiset(to) == multiset(to2)
    requires OnePerTopic(from, TopicKey()) && OnePerTopic(to, TopicKey())
    ensures ChainsOf(h, from2, to2) == ChainsOf(h, from, to) && MovesOf(from2, to2) == MovesOf(from, to)
  {
    hide Collect, StableSorted, IndexBy, OnePerTopic, Differ;
    IndexIgnoresOrder(from, from2, TopicKey());
    IndexIgnoresOrder(to, to2, TopicKey());
    var f, t := IndexBy(from, TopicKey()).at, IndexBy(to, TopicKey()).at;
    KeysCarryTopics();
    CollectIgnoresOrder(to, to2, TopicKey(), OnlyHere(f), RefTopic(), RefKey());
    CollectIgnoresOrder(from, from2, TopicKey(), OnlyHere(t), RefTopic(), RefKey());
    CollectIgnoresOrder(to, to2, TopicKey(), ChangedFrom(h, f), ChangeTopic(), ChangeKey());
    CollectIgnoresOrder(to, to2, TopicKey(), MovedFrom(f), MoveTopic(), MoveKey());
    CollectMultisets(to, to2, SameAs(h, f));
    var x, y := Collect(to, SameAs(h, f)), Collect(to2, SameAs(h, f));
    assert |x| == |multiset(x)| && |y| == |multiset(y)|;
  }

  lemma {:induction false} MappedIsCollected<T, U>(rows: seq<T>, f: T -> U)
    ensures Mapped(rows, f) == Collect(rows, x => Some(f(x)))
  {
    if rows != [] {
      MappedIsCollected(rows[..|rows| - 1], f);
      LastSplit(rows);
      MappedAppend(rows[..|rows| - 1], rows[|rows| - 1], f);
    }
  }

  lemma MappedMultisets<T, U>(a: seq<T>, b: seq<T>, f: T -> U)
    requires multiset(a) == multiset(b)
    ensures multiset(Mapped(a, f)) == multiset(Mapped(b, f))
  {
    MappedIsCollected(a, f);
    MappedIsCollected(b, f);
    CollectMultisets(a, b, x => Some(f(x)));
  }

  /** Deltas are fixed by the multisets that they compare. */
  lemma DeltasAreFixed<K(!new)>(from: seq<K>, to: seq<K>, d: map<K, int>, from2: seq<K>, to2: seq<K>, e: map<K, int>)
    requires multiset(from) == multiset(from2) && multiset(to) == multiset(to2)
    requires IsDelta(d, from, to) && IsDelta(e, from2, to2)
    ensures d == e
  {
    SameMembers(from, from2);
    SameMembers(to, to2);
    assert d.Keys == e.Keys;
    forall k | k in d ensures d[k] == e[k] {
      assert CountOf(d, k) == Difference(from, to, k) && CountOf(e, k) == Difference(from2, to2, k);
    }
  }

  lemma PendingIgnoresOrder(from: seq<PendingItem>, to: seq<PendingItem>, from2: seq<PendingItem>, to2: seq<PendingItem>)
    requires multiset(from) == multiset(from2) && multiset(to) == multiset(to2)
    requires OnePerTopic(from, ItemTopic()) && OnePerTopic(to, ItemTopic())
    ensures PendingOf(from2, to2) == PendingOf(from, to)
  {
    hide Collect, StableSorted, IndexBy, OnePerTopic;
    IndexIgnoresOrder(from, from2, ItemTopic());
    IndexIgnoresOrder(to, to2, ItemTopic());
    var f, t := IndexBy(from, ItemTopic()).at, IndexBy(to, ItemTopic()).at;
    CollectMultisets(to, to2, PendingOnlyHere(f));
    CollectMultisets(from, from2, PendingOnlyHere(t));
    TextsAreTieFree(Collect(to, PendingOnlyHere(f)));
    TextsAreTieFree(Collect(from, PendingOnlyHere(t)));
    OrderDoesNotMatter(Collect(to, PendingOnlyHere(f)), Collect(to2, PendingOnlyHere(f)), TextKey());
    OrderDoesNotMatter(Collect(from, PendingOnlyHere(t)), Collect(from2, PendingOnlyHere(t)), TextKey());
    SameMembers(from, from2);
    SameMembers(to, to2);
  }

  lemma TextsAreTieFree(texts: seq<string>)
    ensures TieFree(texts, TextKey())
  {
    forall x, y | x in texts && y in texts && TextKey()(x) == TextKey()(y) ensures x == y {
      assert TextKey()(x)[0] == TextKey()(y)[0];
    }
  }

  /** With one row and one pending item per topic the whole comparison does not depend on the order of its inputs. */
  lemma ComparisonIgnoresOrder(h: Digest, from: seq<Memory>, to: seq<Memory>, fromPending: seq<PendingItem>,
                               toPending: seq<PendingItem>, c: Comparison, from2: seq<Memory>, to2: seq<Memory>,
                               fromPending2: seq<PendingItem>, toPending2: seq<PendingItem>, d: Comparison)
    requires IsComparison(h, from, to, fromPending, toPending, c) && IsComparison(h, from2, to2, fromPending2, toPending2, d)
    requires multiset(from) == multiset(from2) && multiset(to) == multiset(to2)
    requires multiset(fromPending) == multiset(fromPending2) && multiset(toPending) == multiset(toPending2)
    requires OnePerTopic(from, TopicKey()) && OnePerTopic(to, TopicKey())
    requires OnePerTopic(fromPending, ItemTopic()) && OnePerTopic(toPending, ItemTopic())
    ensures c == d
  {
    hide OnePerTopic, IsDelta, ChainsOf, MovesOf, PendingOf, Mapped;
    ChainsIgnoreOrder(h, from, to, from2, to2);
    PendingIgnoresOrder(fromPending, toPending, fromPending2, toPending2);
    SameMembers(from, from2);
    SameMembers(to, to2);
    KindsIgnoreOrder(from, from2);
    KindsIgnoreOrder(to, to2);
    DeltasAreFixed(Kinds(from), Kinds(to), c.byKindDelta, Kinds(from2), Kinds(to2), d.byKindDelta);
    DeltasAreFixed(Statuses(from), Statuses(to), c.byStatusDelta, Statuses(from2), Statuses(to2), d.byStatusDelta);
  }

  lemma KindsIgnoreOrder(a: seq<Memory>, b: seq<Memory>)
    requires multiset(a) == multiset(b)
    ensures multiset(Kinds(a)) == multiset(Kinds(b)) && multiset(Statuses(a)) == multiset(Statuses(b))
  {
    MappedMultisets(a, b, KindOf());
    MappedMultisets(a, b, StatusOf());
  }

  lemma KeysCarryTopics()
    ensures forall x, y :: RefKey()(x) == RefKey()(y) ==> RefTopic()(x) == RefTopic()(y)
    ensures forall x, y :: ChangeKey()(x) == ChangeKey()(y) ==> ChangeTopic()(x) == ChangeTopic()(y)
    ensures forall x, y :: MoveKey()(x) == MoveKey()(y) ==> MoveTopic()(x) == MoveTopic()(y)
  {
    forall x, y | RefKey()(x) == RefKey()(y) ensures RefTopic()(x) == RefTopic()(y) {
      assert RefKey()(x)[0] == RefKey()(y)[0];
    }
    forall x, y | ChangeKey()(x) == ChangeKey()(y) ensures ChangeTopic()(x) == ChangeTopic()(y) {
      assert ChangeKey()(x)[0] == ChangeKey()(y)[0];
    }
    forall x, y | MoveKey()(x) == MoveKey()(y) ensures MoveTopic()(x) == MoveTopic()(y) {
      assert MoveKey()(x)[0] == MoveKey()(y)[0];
    }
  }
}
