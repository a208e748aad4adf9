/** What the search finds, in the words of the query and the fields of the rows: which rows are hits, with which score,
    and in which order. */
module SearchWords {
  import opened Text
  import opened Records
  import opened Sorting
  import opened Lists
  import opened StableSort
  import opened Search
  import PeriodComparison
  import ExportOrder

  /** The tokenizer splits at spaces: two texts side by side hold the words of both. */
  ghost predicate SplitsAtSpaces(x: Platform) {
    forall a, b, t :: t in x.tokenize(a + " " + b) <==> t in x.tokenize(a) || t in x.tokenize(b)
  }

  /** The word occurs in the title or in one of the four content fields. */
  predicate Mentions(x: Platform, m: Memory, word: string) {
    || word in x.tokenize(m.title)
    || word in x.tokenize(m.content.what) || word in x.tokenize(m.content.why)
    || word in x.tokenize(m.content.where) || word in x.tokenize(m.content.learned)
  }

  /** The words of the query that a row mentions. */
  function Mentioned(x: Platform, q: Query, m: Memory): set<string> {
    set t | t in x.tokenize(q.text) && Mentions(x, m, t)
  }

  lemma SearchableIff(x: Platform, m: Memory, t: string)
    requires SplitsAtSpaces(x)
    ensures t in Searchable(x, m) <==> Mentions(x, m, t)
  {
    var a := m.title + " " + m.content.what;
    var b := a + " " + m.content.why;
    var c := b + " " + m.content.where;
    assert Searchable(x, m) == x.tokenize(c + " " + m.content.learned);
    assert t in x.tokenize(a) <==> t in x.tokenize(m.title) || t in x.tokenize(m.content.what);
    assert t in x.tokenize(b) <==> t in x.tokenize(a) || t in x.tokenize(m.content.why);
    assert t in x.tokenize(c) <==> t in x.tokenize(b) || t in x.tokenize(m.content.where);
  }

  /** The score of a row is the number of different words of the query that it mentions. */
  lemma ScoreCountsWords(x: Platform, q: Query, m: Memory)
    requires SplitsAtSpaces(x)
    ensures Score(x, m, Unique(x.tokenize(q.text))) == |Mentioned(x, q, m)|
  {
    hide Searchable, Mentions;
    var tokens := Unique(x.tokenize(q.text));
    var found := Filter(tokens, t => t in Searchable(x, m));
    FilterKeepsDistinct(tokens, t => t in Searchable(x, m));
    PeriodComparison.DistinctCount(found);
    forall t ensures t in found <==> t in Mentioned(x, q, m) {
      SearchableIff(x, m, t);
    }
    assert (set t | t in found) == Mentioned(x, q, m);
  }

  /** Any of the words, or all of them when the query asks for that. */
  predicate MentionsEnough(x: Platform, q: Query, m: Memory) {
    if q.matchAll then forall t | t in x.tokenize(q.text) :: Mentions(x, m, t)
    else exists t | t in x.tokenize(q.text) :: Mentions(x, m, t)
  }

  lemma EnoughIff(x: Platform, q: Query, m: Memory)
    ensures
      var words := set t | t in x.tokenize(q.text);
      MentionsEnough(x, q, m) <==> if q.matchAll then Mentioned(x, q, m) == words else Mentioned(x, q, m) != {}
  {
    hide Mentions;
    var words := set t | t in x.tokenize(q.text);
    var found := Mentioned(x, q, m);
    if q.matchAll {
      if found == words {
        forall t | t in x.tokenize(q.text) ensures Mentions(x, m, t) {
          assert t in found;
        }
      }
    } else {
      if found != {} {
        var t :| t in found;
        assert t in x.tokenize(q.text) && Mentions(x, m, t);
      }
      if t :| t in x.tokenize(q.text) && Mentions(x, m, t) {
        assert t in found;
      }
    }
  }

  lemma MatchesIff(x: Platform, q: Query, m: Memory)
    requires SplitsAtSpaces(x)
    ensures Matches(x, q, Unique(x.tokenize(q.text)), m) <==> MentionsEnough(x, q, m)
  {
    hide Mentions, MentionsEnough, Score;
    var tokens := Unique(x.tokenize(q.text));
    var words := set t | t in x.tokenize(q.text);
    ScoreCountsWords(x, q, m);
    EnoughIff(x, q, m);
    PeriodComparison.DistinctCount(tokens);
    assert (set t | t in tokens) == words;
    if |Mentioned(x, q, m)| == |words| {
      SameSize(Mentioned(x, q, m), words);
    }
  }

  lemma SameSize<T>(a: set<T>, b: set<T>)
    requires a <= b && |a| == |b|
    ensures a == b
  {
    assert b == a + (b - a);
  }

  /** In scope, and past the filters of the query. */
  predicate Asked(q: Query, m: Memory) {
    && (m.scope == q.scope || (m.scope.Institutional? && q.includeInstitutional))
    && (q.kinds != [] ==> m.kind in q.kinds) && (q.statuses != [] ==> m.status in q.statuses)
    && (q.effect.Some? ==> m.fiscalEffect == q.effect.value)
  }

  /** The row at i stands for its chain: no row of the chain that was asked for has a higher revision, nor an equal one
      further up. */
  predicate StandsForChain(rows: seq<Memory>, q: Query, i: nat)
    requires i < |rows|
  {
    forall j | 0 <= j < |rows| && Asked(q, rows[j]) && ChainKey(rows[j].topicKey, rows[j].scope) == ChainKey(rows[i].topicKey, rows[i].scope) ::
      rows[j].revision <= rows[i].revision && (j < i ==> rows[j].revision < rows[i].revision)
  }

  lemma CandidateIff(q: Query, m: Memory)
    ensures Candidate(q)(m) <==> Asked(q, m)
  {
    assert m.scope.Institutional? && q.scope.Institutional? ==> m.scope == q.scope;
    assert InScope(q)(m) <==> m.scope == q.scope || (m.scope.Institutional? && q.includeInstitutional);
  }

  lemma ChosenIff(rows: seq<Memory>, q: Query, i: nat)
    requires i < |rows|
    ensures Chosen(rows, Candidate(q), i) <==> Asked(q, rows[i]) && StandsForChain(rows, q, i)
  {
    hide Asked, ChainKey;
    forall m ensures Candidate(q)(m) <==> Asked(q, m) {
      CandidateIff(q, m);
    }
  }

  /** The hits, exactly: rows that were asked for, stand for their chain and mention enough words of a query that has
      some; the score counts the words that the row mentions. */
  lemma HitInWords(x: Platform, rows: seq<Memory>, q: Query, h: Hit)
    requires SplitsAtSpaces(x)
    ensures h in Ranked(x, rows, q) <==>
            && x.tokenize(q.text) != [] && h.score == |Mentioned(x, q, h.memory)| && h.stale == x.stale(h.memory)
            && exists i :: 0 <= i < |rows| && rows[i] == h.memory && Asked(q, rows[i]) && StandsForChain(rows, q, i) &&
                           MentionsEnough(x, q, rows[i])
  {
    hide Ranked, Matches, Chosen, Asked, StandsForChain, MentionsEnough, Mentioned, Score, Unique;
    var tokens := Unique(x.tokenize(q.text));
    UniqueIsEmpty(x.tokenize(q.text));
    HitIff(x, rows, q, h);
    ScoreCountsWords(x, q, h.memory);
    MatchesIff(x, q, h.memory);
    forall i: nat | i < |rows| ensures Chosen(rows, Candidate(q), i) <==> Asked(q, rows[i]) && StandsForChain(rows, q, i) {
      ChosenIff(rows, q, i);
    }
  }

  lemma UniqueIsEmpty(tokens: seq<string>)
    ensures Unique(tokens) == [] <==> tokens == []
  {
    assert tokens != [] ==> tokens[0] in Unique(tokens);
  }

  /** A word of the title alone makes a row a hit of the query for it. */
  lemma TitleWordsAreFound(x: Platform, rows: seq<Memory>, q: Query, i: nat, word: string)
    requires SplitsAtSpaces(x) && i < |rows| && Asked(q, rows[i]) && StandsForChain(rows, q, i)
    requires x.tokenize(q.text) == [word] && word in x.tokenize(rows[i].title)
    ensures Hit(rows[i], 1, x.stale(rows[i])) in Ranked(x, rows, q)
  {
    hide Ranked, Asked, StandsForChain;
    HitInWords(x, rows, q, Hit(rows[i], 1, x.stale(rows[i])));
    assert Mentioned(x, q, rows[i]) == {word};
  }

  /** The order of the hits: higher score first, then the newer row, then the collation of the ids; the answer is a
      prefix of all hits, and a negative limit drops that many from the end. */
  lemma HitsAreInOrder(x: Platform, rows: seq<Memory>, q: Query, i: nat, j: nat)
    requires x.validScope(q.scope)
    ensures
      var all, returned := Ranked(x, rows, q), Search.Search(x, rows, q).value;
      && returned <= all
      && |returned| == (if q.limit < 0 then if |all| + q.limit < 0 then 0 else |all| + q.limit
                        else if q.limit < |all| then q.limit else |all|)
      && (i < j < |all| ==>
            var a, b := all[i], all[j];
            || a.score > b.score
            || (a.score == b.score && x.instant(a.memory.recordedAt) > x.instant(b.memory.recordedAt))
            || (a.score == b.score && x.instant(a.memory.recordedAt) == x.instant(b.memory.recordedAt) &&
                LessEq(x.collation(a.memory.id), x.collation(b.memory.id))))
  {
    hide Latest, Filter, StableSorted, Unique, Hits, KeyLessEq, Less;
    var tokens := Unique(x.tokenize(q.text));
    SortsStably(Hits(x, q, tokens, Latest(Candidates(rows, q)).Values()), Rank(x));
    var all := Ranked(x, rows, q);
    if i < j < |all| {
      RankOrder(x, all[i], all[j]);
    }
  }

  lemma RankOrder(x: Platform, a: Hit, b: Hit)
    ensures KeyLessEq(Rank(x)(a), Rank(x)(b)) <==>
            || a.score > b.score
            || (a.score == b.score && x.instant(a.memory.recordedAt) > x.instant(b.memory.recordedAt))
            || (a.score == b.score && x.instant(a.memory.recordedAt) == x.instant(b.memory.recordedAt) &&
                LessEq(x.collation(a.memory.id), x.collation(b.memory.id)))
  {
    hide KeyLessEq, Less;
    var s, t := -(a.score as int), -(b.score as int);
    var u, v := -x.instant(a.memory.recordedAt), -x.instant(b.memory.recordedAt);
    var c, d := x.collation(a.memory.id), x.collation(b.memory.id);
    ExportOrder.NumberThenText(u, c, v, d);
    ExportOrder.NumberDecides(s, t, [N(u), S(c)], [N(v), S(d)]);
    assert [N(s)] + [N(u), S(c)] == Rank(x)(a) && [N(t)] + [N(v), S(d)] == Rank(x)(b);
  }
}
