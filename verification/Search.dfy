/** Scope-first search: structural filters, the latest revision of each chain, and ranking. */
module Search {
  import opened Text
  import opened Records
  import opened Sorting
  import opened Lists
  import opened StableSort
  import opened StoreModel
  import opened RevisionChains
  import StoreRuns
  import StoreCollisions

  datatype Query = Query(
    text: string, scope: Scope, matchAll: bool, includeInstitutional: bool, kinds: seq<string>,
    statuses: seq<Status>, effect: Option<FiscalEffect>, limit: int)

  /** The tokenizer, the clock and the locale of the platform. */
  datatype Platform = Platform(
    validScope: Scope -> bool, tokenize: string -> seq<string>, instant: string -> int,
    collation: string -> string, stale: Memory -> bool)

  datatype Hit = Hit(memory: Memory, score: nat, stale: bool)

  // ------------------------------------------------------------------ filters

  function InScope(q: Query): Memory -> bool {
    (m: Memory) => if m.scope.Institutional? then q.includeInstitutional || q.scope.Institutional? else m.scope == q.scope
  }

  function Passes(q: Query): Memory -> bool {
    (m: Memory) =>
      && (q.kinds == [] || m.kind in q.kinds)
      && (q.statuses == [] || m.status in q.statuses)
      && (q.effect.None? || m.fiscalEffect == q.effect.value)
  }

  function Candidates(rows: seq<Memory>, q: Query): seq<Memory> {
    Filter(Filter(rows, InScope(q)), Passes(q))
  }

  // -------------------------------------------------------- latest per chain

  function ChainOf(m: Memory): string {
    ChainKey(m.topicKey, m.scope)
  }

  /** The first of the highest revisions of each chain, at the place where the chain first appears. */
  function Latest(rows: seq<Memory>): (r: OrderedMap<Memory>)
    ensures r.Valid()
  {
    if rows == [] then OrderedMap([], map[])
    else
      var before, m := Latest(rows[..|rows| - 1]), rows[|rows| - 1];
      before.PutKeepsValid(ChainOf(m), m);
      if ChainOf(m) in before.at && m.revision <= before.at[ChainOf(m)].revision then before else before.Put(ChainOf(m), m)
  }

  method LatestPerChain(rows: seq<Memory>) returns (latest: seq<Memory>)
    ensures latest == Latest(rows).Values()
  {
    var found: OrderedMap<Memory> := OrderedMap([], map[]);
    for i := 0 to |rows|
      invariant found == Latest(rows[..i])
    {
      assert rows[..i + 1][..i] == rows[..i];
      var m := rows[i];
      if ChainOf(m) !in found.at || m.revision > found.at[ChainOf(m)].revision {
        found := found.Put(ChainOf(m), m);
      }
    }
    assert rows[..|rows|] == rows;
    latest := found.Values();
  }

  // ------------------------------------------------------------------ ranking

  /** Tokens without repetition, in order of first appearance. */
  function Unique(tokens: seq<string>): (r: seq<string>)
    ensures Distinct(r) && forall t :: t in r <==> t in tokens
  {
    if tokens == [] then []
    else
      var before := Unique(tokens[..|tokens| - 1]);
      if tokens[|tokens| - 1] in before then before else before + [tokens[|tokens| - 1]]
  }

  function Searchable(x: Platform, m: Memory): seq<string> {
    x.tokenize(m.title + " " + m.content.what + " " + m.content.why + " " + m.content.where + " " + m.content.learned)
  }

  /** How many of the query tokens occur in the row. */
  function Score(x: Platform, m: Memory, tokens: seq<string>): nat {
    |Filter(tokens, t => t in Searchable(x, m))|
  }

  function Matches(x: Platform, q: Query, tokens: seq<string>, m: Memory): bool {
    if q.matchAll then Score(x, m, tokens) == |tokens| else Score(x, m, tokens) > 0
  }

  function HitOf(x: Platform, tokens: seq<string>, m: Memory): Hit {
    Hit(m, Score(x, m, tokens), x.stale(m))
  }

  /** More overlap first, newer first, and the collation of the ids at last. */
  function Rank(x: Platform): Hit -> Key {
    (h: Hit) => [N(-(h.score as int)), N(-x.instant(h.memory.recordedAt)), S(x.collation(h.memory.id))]
  }

  function Hits(x: Platform, q: Query, tokens: seq<string>, rows: seq<Memory>): (r: seq<Hit>)
    ensures forall h | h in r :: h.memory in rows && Matches(x, q, tokens, h.memory) && h == HitOf(x, tokens, h.memory)
    ensures forall m | m in rows && Matches(x, q, tokens, m) :: HitOf(x, tokens, m) in r
  {
    if rows == [] then []
    else Hits(x, q, tokens, rows[..|rows| - 1]) +
         (var m := rows[|rows| - 1]; if Matches(x, q, tokens, m) then [HitOf(x, tokens, m)] else [])
  }

  /** `slice(0, limit)`. */
  function FirstOf<T>(s: seq<T>, limit: int): seq<T> {
    if limit < 0 then s[..if |s| + limit < 0 then 0 else |s| + limit] else s[..if limit < |s| then limit else |s|]
  }

  /** Every match, best first. */
  function Ranked(x: Platform, rows: seq<Memory>, q: Query): seq<Hit> {
    var tokens := Unique(x.tokenize(q.text));
    if tokens == [] then []
    else StableSorted(Hits(x, q, tokens, Latest(Candidates(rows, q)).Values()), Rank(x))
  }

  /** None: the query scope is not valid. */
  function Search(x: Platform, rows: seq<Memory>, q: Query): Option<seq<Hit>> {
    if !x.validScope(q.scope) then None else Some(FirstOf(Ranked(x, rows, q), q.limit))
  }

  method ScoreMemory(x: Platform, m: Memory, tokens: seq<string>) returns (score: nat)
    ensures score == Score(x, m, tokens)
  {
    score := 0;
    var words := Searchable(x, m);
    for i := 0 to |tokens|
      invariant score + |Filter(tokens[i..], t => t in Searchable(x, m))| == Score(x, m, tokens)
    {
      score := score + if tokens[i] in words then 1 else 0;
      assert tokens[i..][1..] == tokens[i + 1..];
    }
  }

  method ScopeFirstSearch(x: Platform, rows: seq<Memory>, q: Query) returns (r: Option<seq<Hit>>)
    ensures r == Search(x, rows, q)
  {
    hide Latest, Filter, StableSorted, Unique, Score;
    if !x.validScope(q.scope) {
      return None;
    }
    var tokens := Unique(x.tokenize(q.text));
    if |tokens| == 0 {
      return Some(FirstOf([], q.limit));
    }
    var latest := LatestPerChain(Candidates(rows, q));
    var results: seq<Hit> := [];
    for i := 0 to |latest|
      invariant results == Hits(x, q, tokens, latest[..i])
    {
      assert latest[..i + 1][..i] == latest[..i];
      var score := ScoreMemory(x, latest[i], tokens);
      var matched := if q.matchAll then score == |tokens| else score > 0;
      if !matched {
        continue;
      }
      results := results + [Hit(latest[i], score, x.stale(latest[i]))];
    }
    assert latest[..|latest|] == latest;
    r := Some(FirstOf(StableSorted(results, Rank(x)), q.limit));
  }

  // ---------------------------------------------------------- noninterference

  /** The rows of exactly one scope. */
  function Within(scope: Scope): Memory -> bool {
    (m: Memory) => m.scope == scope
  }

  /** A company query that does not ask for institutional rows sees its own scope and nothing else: stores
      that agree on the rows of that scope give the same answer, whatever else they hold and wherever. */
  lemma ForeignRowsDoNotShow(x: Platform, a: seq<Memory>, b: seq<Memory>, q: Query)
    requires q.scope.Company? && !q.includeInstitutional
    requires Filter(a, Within(q.scope)) == Filter(b, Within(q.scope))
    ensures Search(x, a, q) == Search(x, b, q)
  {
    FilterAgrees(a, InScope(q), Within(q.scope));
    FilterAgrees(b, InScope(q), Within(q.scope));
  }

  // ------------------------------------------------------------------ results

  /** The chosen rows: one per chain, from the rows given, and none higher. */
  lemma {:induction false} LatestIsHighest(rows: seq<Memory>)
    ensures
      var r := Latest(rows);
      && (forall k | k in r.at :: r.at[k] in rows && ChainOf(r.at[k]) == k)
      && (forall m | m in rows :: ChainOf(m) in r.at && m.revision <= r.at[ChainOf(m)].revision)
  {
    if rows != [] {
      LatestIsHighest(rows[..|rows| - 1]);
      assert rows == rows[..|rows| - 1] + [rows[|rows| - 1]];
    }
  }

  lemma LatestRow(rows: seq<Memory>, i: nat)
    requires i < |Latest(rows).Values()|
    ensures
      var m := Latest(rows).Values()[i];
      && ChainOf(m) == Latest(rows).keys[i] && m in rows
      && forall n | n in rows && ChainOf(n) == ChainOf(m) :: n.revision <= m.revision
  {
    LatestIsHighest(rows);
    assert Latest(rows).keys[i] in Latest(rows).keys;
  }

  /** In scope and past every filter. */
  function Candidate(q: Query): Memory -> bool {
    (m: Memory) => InScope(q)(m) && Passes(q)(m)
  }

  /** The row at i is the first of the highest candidates of its chain. */
  predicate Chosen(rows: seq<Memory>, keep: Memory -> bool, i: nat)
    requires i < |rows|
  {
    keep(rows[i]) &&
    forall j | 0 <= j < |rows| && keep(rows[j]) && ChainOf(rows[j]) == ChainOf(rows[i]) ::
      rows[j].revision < rows[i].revision || (rows[j].revision == rows[i].revision && i <= j)
  }

  /** The place of the chosen row of a chain, or -1. */
  function Best(rows: seq<Memory>, keep: Memory -> bool, key: string): (b: int)
    ensures -1 <= b < |rows|
    ensures b >= 0 ==> ChainOf(rows[b]) == key && Chosen(rows, keep, b)
    ensures b < 0 ==> forall j | 0 <= j < |rows| && ChainOf(rows[j]) == key :: !keep(rows[j])
  {
    if rows == [] then -1
    else
      var n := |rows| - 1;
      var b := Best(rows[..n], keep, key);
      assert forall j | 0 <= j < n :: rows[..n][j] == rows[j];
      if keep(rows[n]) && ChainOf(rows[n]) == key && (b < 0 || rows[n].revision > rows[b].revision) then n else b
  }

  lemma ChosenIsBest(rows: seq<Memory>, keep: Memory -> bool, i: nat)
    requires i < |rows| && Chosen(rows, keep, i)
    ensures Best(rows, keep, ChainOf(rows[i])) == i
  {
    var b := Best(rows, keep, ChainOf(rows[i]));
    assert Chosen(rows, keep, b);
  }

  /** The map loop over the candidates finds exactly the chosen rows. */
  lemma {:induction false} LatestIsBest(rows: seq<Memory>, keep: Memory -> bool, key: string)
    ensures
      var latest, b := Latest(Filter(rows, keep)), Best(rows, keep, key);
      (key in latest.at <==> b >= 0) && (b >= 0 ==> latest.at[key] == rows[b])
  {
    hide Filter, Chosen, Latest, ChainOf;
    NothingLatest();
    if rows != [] {
      var n := |rows| - 1;
      var front, last := rows[..n], rows[n];
      LatestIsBest(front, keep, key);
      LastSplit(rows);
      FilterConcat(front, [last], keep);
      FilterOne(last, keep);
      LatestGrows(Filter(front, keep), last);
      assert Filter(front, keep) + [] == Filter(front, keep);
    }
  }

  lemma NothingLatest()
    ensures Latest([]).at == map[] && forall keep: Memory -> bool :: Filter([], keep) == []
  {
  }

  lemma LatestGrows(rows: seq<Memory>, m: Memory)
    ensures Latest(rows + [m]) ==
            if ChainOf(m) in Latest(rows).at && m.revision <= Latest(rows).at[ChainOf(m)].revision then Latest(rows)
            else Latest(rows).Put(ChainOf(m), m)
  {
    assert (rows + [m])[..|rows|] == rows;
  }

  lemma {:induction false} FilterBoth<T>(s: seq<T>, a: T -> bool, b: T -> bool, both: T -> bool)
    requires forall x | x in s :: both(x) == (a(x) && b(x))
    ensures Filter(Filter(s, a), b) == Filter(s, both)
  {
    if s != [] {
      FilterBoth(s[1..], a, b, both);
      FilterConcat(if a(s[0]) then [s[0]] else [], Filter(s[1..], a), b);
    }
  }

  lemma ValuesOf(rows: seq<Memory>, m: Memory)
    ensures m in Latest(rows).Values() <==> ChainOf(m) in Latest(rows).at && Latest(rows).at[ChainOf(m)] == m
  {
    LatestIsHighest(rows);
    var r := Latest(rows);
    if m in r.Values() {
      var i :| 0 <= i < |r.keys| && r.Values()[i] == m;
      assert r.keys[i] in r.keys;
    }
    if ChainOf(m) in r.at && r.at[ChainOf(m)] == m {
      assert ChainOf(m) in r.keys;
      var i :| 0 <= i < |r.keys| && r.keys[i] == ChainOf(m);
      assert r.Values()[i] == m;
    }
  }

  /** The hits, exactly: the matching ones among the chosen rows. */
  lemma HitIff(x: Platform, rows: seq<Memory>, q: Query, h: Hit)
    ensures
      var tokens := Unique(x.tokenize(q.text));
      h in Ranked(x, rows, q) <==>
      tokens != [] && exists i :: 0 <= i < |rows| && Chosen(rows, Candidate(q), i) && Matches(x, q, tokens, rows[i]) &&
                                  h == HitOf(x, tokens, rows[i])
  {
    hide Latest, Filter, Unique, StableSorted, Matches, Chosen, HitOf;
    var tokens, keep := Unique(x.tokenize(q.text)), Candidate(q);
    FilterBoth(rows, InScope(q), Passes(q), keep);
    var latest := Latest(Filter(rows, keep)).Values();
    SortKeepsRows(Hits(x, q, tokens, latest), Rank(x));
    forall m | m in latest ensures exists i :: 0 <= i < |rows| && Chosen(rows, keep, i) && rows[i] == m {
      ValuesOf(Filter(rows, keep), m);
      LatestIsBest(rows, keep, ChainOf(m));
      var i := Best(rows, keep, ChainOf(m));
      assert Chosen(rows, keep, i) && rows[i] == m;
    }
    forall i | 0 <= i < |rows| && Chosen(rows, keep, i) ensures rows[i] in latest {
      ChosenIsBest(rows, keep, i);
      LatestIsBest(rows, keep, ChainOf(rows[i]));
      ValuesOf(Filter(rows, keep), rows[i]);
    }
    HitsAreMatches(x, q, tokens, latest, h);
  }

  lemma HitsAreMatches(x: Platform, q: Query, tokens: seq<string>, latest: seq<Memory>, h: Hit)
    ensures h in Hits(x, q, tokens, latest) <==>
            h.memory in latest && Matches(x, q, tokens, h.memory) && h == HitOf(x, tokens, h.memory)
    ensures forall m :: HitOf(x, tokens, m).memory == m
  {
  }

  /** Nothing that was left out by the limit outranks what was returned, and the limit is filled when it can be. */
  lemma NothingOmittedOutranks(x: Platform, rows: seq<Memory>, q: Query, i: nat, j: nat)
    requires x.validScope(q.scope) && q.limit >= 0
    ensures
      var all, returned := Ranked(x, rows, q), Search(x, rows, q).value;
      && |returned| == (if q.limit < |all| then q.limit else |all|)
      && (i < |returned| && j < |all| ==> returned[i] == all[i])
      && (i < |returned| <= j < |all| ==> KeyLessEq(Rank(x)(returned[i]), Rank(x)(all[j])))
  {
    var tokens := Unique(x.tokenize(q.text));
    SortsStably(Hits(x, q, tokens, Latest(Candidates(rows, q)).Values()), Rank(x));
  }

  /** A company query returns at most one row per topic. */
  lemma OneHitPerTopic(x: Platform, rows: seq<Memory>, q: Query)
    requires q.scope.Company? && !q.includeInstitutional
    ensures forall g, h | g in Ranked(x, rows, q) && h in Ranked(x, rows, q) && g.memory.topicKey == h.memory.topicKey :: g == h
  {
    var candidates, tokens := Candidates(rows, q), Unique(x.tokenize(q.text));
    var latest := Latest(candidates).Values();
    SortKeepsRows(Hits(x, q, tokens, latest), Rank(x));
    forall g, h | g in Ranked(x, rows, q) && h in Ranked(x, rows, q) && g.memory.topicKey == h.memory.topicKey
      ensures g == h
    {
      var i :| 0 <= i < |latest| && latest[i] == g.memory;
      var j :| 0 <= j < |latest| && latest[j] == h.memory;
      LatestRow(candidates, i);
      LatestRow(candidates, j);
    }
  }

  // ----------------------------------------------------------- stored chains

  predicate Unfiltered(q: Query) {
    q.kinds == [] && q.statuses == [] && q.effect.None?
  }

  ghost predicate PlainRows(rows: seq<Memory>) {
    forall m | m in rows :: NulFree(m.topicKey) && PlainScope(m.scope)
  }

  lemma {:induction false} ChainsGrow(p: Primitives, rows: seq<Memory>, n: nat, key: string)
    requires n <= |rows|
    ensures |RevisionChains.ChainOf(p, rows[..n], key)| <= |RevisionChains.ChainOf(p, rows, key)|
    decreases |rows|
  {
    if n < |rows| {
      ChainsGrow(p, rows[..|rows| - 1], n, key);
      assert rows[..|rows| - 1][..n] == rows[..n];
    } else {
      assert rows[..n] == rows;
    }
  }

  /** Within a stored chain, a later row has a higher revision. */
  lemma LaterIsHigher(p: Primitives, rows: seq<Memory>, i: nat, j: nat)
    requires RowsOk(p, rows) && i < j < |rows| && KeyOf(p, rows[i]) == KeyOf(p, rows[j])
    ensures rows[i].revision < rows[j].revision
  {
    hide RevisionChains.ChainOf, KeyOf;
    var key := KeyOf(p, rows[i]);
    assert ChainOkAt(p, rows, key);
    RankIndexes(p, rows, i);
    RankIndexes(p, rows, j);
    ChainsGrow(p, rows[..j], i + 1, key);
    assert rows[..j][..i + 1] == rows[..i + 1] && rows[..i + 1] == rows[..i] + [rows[i]];
    ChainAfterAppend(p, rows[..i], rows[i], key);
  }

  /** Every later revision of the chain that is in scope fails the filters. */
  predicate LaterFail(rows: seq<Memory>, q: Query, m: Memory) {
    forall j | 0 <= j < |rows| && ChainOf(rows[j]) == ChainOf(m) && rows[j].revision > m.revision && InScope(q)(rows[j]) ::
      !Passes(q)(rows[j])
  }

  /** In every reachable store: a row is a hit exactly when it is in scope, passes and matches, and every later
      revision of its chain fails the filters. */
  lemma RowIsHitIff(x: Platform, p: Primitives, ops: seq<StoreRuns.Op>, q: Query, at: nat)
    requires StoreRuns.LegalRun(p, ops) && forall t, s :: p.chainKey(t, s) == ChainKey(t, s)
    requires at < |StoreRuns.Run(p, ops).memories|
    ensures
      var rows, tokens := StoreRuns.Run(p, ops).memories, Unique(x.tokenize(q.text));
      HitOf(x, tokens, rows[at]) in Ranked(x, rows, q) <==>
      tokens != [] && InScope(q)(rows[at]) && Passes(q)(rows[at]) && Matches(x, q, tokens, rows[at]) &&
      LaterFail(rows, q, rows[at])
  {
    hide Ranked, Unique, Matches, InScope, Passes;
    var rows, tokens := StoreRuns.Run(p, ops).memories, Unique(x.tokenize(q.text));
    StoreRuns.RunKeepsInv(p, ops);
    HitIff(x, rows, q, HitOf(x, tokens, rows[at]));
    forall j | 0 <= j < |rows| && j != at && ChainOf(rows[j]) == ChainOf(rows[at])
      ensures if j < at then rows[j].revision < rows[at].revision else rows[j].revision > rows[at].revision
    {
      LaterIsHigher(p, rows, if j < at then j else at, if j < at then at else j);
    }
    assert Chosen(rows, Candidate(q), at) <==>
           InScope(q)(rows[at]) && Passes(q)(rows[at]) && LaterFail(rows, q, rows[at]);
    assert forall i | 0 <= i < |rows| && rows[i] == rows[at] :: i == at;
  }

  /** In reachable stores over topics and scopes without NUL, a superseded row in scope is a hit exactly when it
      passes and matches and every later revision of its topic and scope fails the filters: without filters
      it never is. */
  lemma SupersededIsHitIff(x: Platform, p: Primitives, ops: seq<StoreRuns.Op>, q: Query, at: nat)
    requires StoreRuns.LegalRun(p, ops) && forall t, s :: p.chainKey(t, s) == ChainKey(t, s)
    requires PlainRows(StoreRuns.Run(p, ops).memories)
    requires at < |StoreRuns.Run(p, ops).memories| && StoreRuns.Run(p, ops).memories[at].status == Superseded
    requires InScope(q)(StoreRuns.Run(p, ops).memories[at])
    ensures
      var rows, tokens := StoreRuns.Run(p, ops).memories, Unique(x.tokenize(q.text));
      && (HitOf(x, tokens, rows[at]) in Ranked(x, rows, q) <==>
          tokens != [] && Passes(q)(rows[at]) && Matches(x, q, tokens, rows[at]) &&
          forall m | m in rows && m.topicKey == rows[at].topicKey && m.scope == rows[at].scope &&
                     m.revision > rows[at].revision :: !Passes(q)(m))
      && (Unfiltered(q) ==> HitOf(x, tokens, rows[at]) !in Ranked(x, rows, q))
  {
    hide Ranked, Unique, Matches, StoreRuns.Run, StoreRuns.LegalRun, RowsOk, Less;
    var rows := StoreRuns.Run(p, ops).memories;
    RowIsHitIff(x, p, ops, q, at);
    forall m | m in rows ensures ChainOf(m) == ChainOf(rows[at]) <==> m.topicKey == rows[at].topicKey && m.scope == rows[at].scope {
      if ChainOf(m) == ChainOf(rows[at]) {
        PlainChainKeysDiffer(m.topicKey, m.scope, rows[at].topicKey, rows[at].scope);
      }
    }
    var next := NextInRun(p, ops, at);
    assert ChainOf(next) == ChainOf(rows[at]);
  }

  /** The revision that a superseded row names. */
  lemma NextInRun(p: Primitives, ops: seq<StoreRuns.Op>, at: nat) returns (next: Memory)
    requires StoreRuns.LegalRun(p, ops) && at < |StoreRuns.Run(p, ops).memories|
    requires StoreRuns.Run(p, ops).memories[at].status == Superseded
    ensures next in StoreRuns.Run(p, ops).memories
    ensures
      var m := StoreRuns.Run(p, ops).memories[at];
      KeyOf(p, next) == KeyOf(p, m) && next.id == m.supersedesId && next.revision == m.revision + 1
  {
    StoreRuns.RunKeepsInv(p, ops);
    var rows := StoreRuns.Run(p, ops).memories;
    RankIndexes(p, rows, at);
    assert ChainOkAt(p, rows, KeyOf(p, rows[at]));
    var k := RevisionChains.Rank(p, rows, at);
    ChainMember(p, rows, KeyOf(p, rows[at]), k + 1);
    next := RevisionChains.ChainOf(p, rows, KeyOf(p, rows[at]))[k + 1];
  }

  lemma {:induction false} ChainMember(p: Primitives, rows: seq<Memory>, key: string, k: nat)
    requires k < |RevisionChains.ChainOf(p, rows, key)|
    ensures var m := RevisionChains.ChainOf(p, rows, key)[k]; m in rows && KeyOf(p, m) == key
  {
    var before := rows[..|rows| - 1];
    if k < |RevisionChains.ChainOf(p, before, key)| {
      ChainMember(p, before, key, k);
    }
  }

  /** It does happen: after two saves of one topic under two kinds, the query for the first kind finds the
      revision that was superseded. */
  lemma KindFilterReturnsSuperseded(x: Platform, p: Primitives, a: SaveInput, idA: string, nowA: string,
                                    b: SaveInput, idB: string, nowB: string, q: Query)
    requires p.signing && idA != "" && idB != "" && idA != idB && forall t, s :: p.chainKey(t, s) == ChainKey(t, s)
    requires SaveRefusal(p, EMPTY, a, nowA).None? && SaveRefusal(p, StoreRuns.Run(p, [StoreRuns.Save(a, idA, nowA)]), b, nowB).None?
    requires a.topicKey == b.topicKey && a.scope == b.scope && a.kind != b.kind
    requires q.scope == a.scope && q.kinds == [a.kind] && q.statuses == [] && q.effect.None?
    ensures
      var rows := StoreRuns.Run(p, StoreCollisions.TwoSaves(a, idA, nowA, b, idB, nowB)).memories;
      var tokens := Unique(x.tokenize(q.text));
      && |rows| == 2 && rows[0].status == Superseded && rows[0].id == idA
      && (HitOf(x, tokens, rows[0]) in Ranked(x, rows, q) <==> tokens != [] && Matches(x, q, tokens, rows[0]))
  {
    hide Ranked, Unique, Matches, StoreRuns.Run, StoreRuns.LegalRun, SaveRefusal;
    var ops := StoreCollisions.TwoSaves(a, idA, nowA, b, idB, nowB);
    var m1, m2 := StoreCollisions.SecondSupersedes(p, a, idA, nowA, b, idB, nowB);
    var rows := StoreRuns.Run(p, ops).memories;
    RowIsHitIff(x, p, ops, q, 0);
    assert rows[1] == m2 && rows[0] == Replacing(m1, m2);
  }
}
