/** The supersession walk that an auditor makes over the store: from a revision along the recorded
    'supersedes' relations to the current row. */
module SupersessionWalk {
  import opened Records
  import opened StoreModel
  import opened RevisionChains
  import opened Verification

  /** `successorOf`: the target of the first 'supersedes' relation recorded from a row. */
  function Successor(relations: seq<Relation>, id: string): Option<string> {
    if relations == [] then None
    else if relations[0].fromId == id && relations[0].relation == Supersedes then Some(relations[0].toId)
    else Successor(relations[1..], id)
  }

  lemma {:induction false} SuccessorAppend(relations: seq<Relation>, r: Relation, id: string)
    ensures Successor(relations + [r], id) ==
            if Successor(relations, id).Some? then Successor(relations, id)
            else if r.fromId == id && r.relation == Supersedes then Some(r.toId) else None
  {
    if relations == [] {
      assert [r][1..] == [];
    } else {
      assert (relations + [r])[1..] == relations[1..] + [r];
      SuccessorAppend(relations[1..], r, id);
    }
  }

  lemma {:induction false} RecordedHasSuccessor(relations: seq<Relation>, k: nat)
    requires k < |relations| && relations[k].relation == Supersedes
    ensures Successor(relations, relations[k].fromId).Some?
  {
    if k > 0 {
      RecordedHasSuccessor(relations[1..], k - 1);
    }
  }

  // ---------------------------------------------------------------- the walk

  function Ids(ms: seq<Memory>): set<string> {
    set i | 0 <= i < |ms| :: ms[i].id
  }

  /** The position of the row's successor, -1 when none is stored. */
  function SuccessorAt(ms: seq<Memory>, relations: seq<Relation>, id: string): (at: int)
    ensures -1 <= at < |ms|
  {
    match Successor(relations, id)
    case None => -1
    case Some(to) => FindMemory(ms, to)
  }

  function LinkAt(ms: seq<Memory>, relations: seq<Relation>, at: nat): SupersessionLink
    requires at < |ms|
  {
    var next := SuccessorAt(ms, relations, ms[at].id);
    SupersessionLink(ms[at].id, if next < 0 then "" else ms[next].id, ms[at].status == Superseded, ScopeOf(ms[at].scope))
  }

  lemma SeenGrows(ms: seq<Memory>, seen: set<string>, at: nat)
    requires at < |ms| && ms[at].id !in seen
    ensures |Ids(ms) - (seen + {ms[at].id})| < |Ids(ms) - seen|
  {
    assert Ids(ms) - (seen + {ms[at].id}) == (Ids(ms) - seen) - {ms[at].id};
    assert ms[at].id in Ids(ms) - seen;
  }

  /** The links of the walk: it ends at a row without a successor or at a repeated row. */
  function Walk(ms: seq<Memory>, relations: seq<Relation>, at: nat, seen: set<string>): seq<SupersessionLink>
    requires at < |ms|
    decreases |Ids(ms) - seen|
  {
    var next := SuccessorAt(ms, relations, ms[at].id);
    if next < 0 || ms[at].id in seen then [LinkAt(ms, relations, at)]
    else
      SeenGrows(ms, seen, at);
      [LinkAt(ms, relations, at)] + Walk(ms, relations, next, seen + {ms[at].id})
  }

  method MemorySupersessionLayer(s: State, subject: nat) returns (layer: Layer)
    requires subject < |s.memories|
    ensures layer.name == SupersessionChain
    ensures layer.status == Passed <==>
            CleanWalk(Walk(s.memories, s.relations, subject, {}), ScopeOf(s.memories[subject].scope))
  {
    var ms := s.memories;
    var seen: set<string> := {};
    var links := [];
    var cur := subject;
    while true
      invariant 0 <= cur < |ms|
      invariant links + Walk(ms, s.relations, cur, seen) == Walk(ms, s.relations, subject, {})
      decreases |Ids(ms) - seen|
    {
      ghost var rest := Walk(ms, s.relations, cur, seen);
      var next := SuccessorAt(ms, s.relations, ms[cur].id);
      links := links + [LinkAt(ms, s.relations, cur)];
      if next < 0 || ms[cur].id in seen {
        break;
      }
      assert rest == [LinkAt(ms, s.relations, cur)] + Walk(ms, s.relations, next, seen + {ms[cur].id});
      SeenGrows(ms, seen, cur);
      seen := seen + {ms[cur].id};
      cur := next;
    }
    layer := VerifySupersessionChain(links, ScopeOf(ms[subject].scope));
  }

  // ------------------------------------------------------ routes inside a chain

  /** The row after position `at` in its chain is stored later. */
  lemma {:induction false} NextIsLater(p: Primitives, ms: seq<Memory>, at: nat)
    requires at < |ms|
    requires Rank(p, ms, at) + 1 < |ChainOf(p, ms, KeyOf(p, ms[at]))|
    ensures exists j | at < j < |ms| ::
      ms[j] == ChainOf(p, ms, KeyOf(p, ms[at]))[Rank(p, ms, at) + 1] && KeyOf(p, ms[j]) == KeyOf(p, ms[at])
  {
    var before, key, last := ms[..|ms| - 1], KeyOf(p, ms[at]), |ms| - 1;
    assert ms[..|ms|] == ms;
    if at < last {
      assert before[..at] == ms[..at];
      RankIndexes(p, before, at);
      if Rank(p, before, at) + 1 < |ChainOf(p, before, key)| {
        NextIsLater(p, before, at);
        var j :| at < j < |before| && before[j] == ChainOf(p, before, key)[Rank(p, before, at) + 1] && KeyOf(p, before[j]) == key;
        assert ms[j] == before[j];
      } else {
        assert ms[last] == ChainOf(p, ms, key)[Rank(p, ms, at) + 1];
      }
    } else {
      RankIndexes(p, ms, at);
    }
  }

  /** A superseded row routes to a later row of its own chain. */
  lemma RouteIsForward(p: Primitives, ms: seq<Memory>, at: nat)
    requires RowsOk(p, ms) && at < |ms| && ms[at].status == Superseded
    ensures at < FindMemory(ms, ms[at].supersedesId) < |ms|
    ensures KeyOf(p, ms[FindMemory(ms, ms[at].supersedesId)]) == KeyOf(p, ms[at])
  {
    var key := KeyOf(p, ms[at]);
    assert ChainOkAt(p, ms, key);
    RankIndexes(p, ms, at);
    NextIsLater(p, ms, at);
    var j :| at < j < |ms| && ms[j] == ChainOf(p, ms, key)[Rank(p, ms, at) + 1] && KeyOf(p, ms[j]) == key;
    FindMemoryAt(ms, j);
  }

  lemma OnlySupersededRoute(p: Primitives, ms: seq<Memory>, at: nat)
    requires RowsOk(p, ms) && at < |ms|
    ensures ms[at].status == Superseded <==> ms[at].supersedesId != ""
  {
    assert ChainOkAt(p, ms, KeyOf(p, ms[at]));
    RankIndexes(p, ms, at);
  }

  // --------------------------------------------------------- relations and rows

  /** The relations route each row exactly where the row itself routes. */
  predicate RoutedRow(relations: seq<Relation>, m: Memory) {
    Successor(relations, m.id) == if m.status == Superseded then Some(m.supersedesId) else None
  }

  ghost predicate Routed(s: State) {
    forall i | 0 <= i < |s.memories| :: RoutedRow(s.relations, s.memories[i])
  }

  /** The rows of one chain lie in one scope. */
  ghost predicate OneScope(p: Primitives, ms: seq<Memory>, key: string, scope: SubjectScope) {
    forall i | 0 <= i < |ms| && KeyOf(p, ms[i]) == key :: ScopeOf(ms[i].scope) == scope
  }

  /** Where relations and rows agree, the walk from any revision of a chain in one scope is clean. */
  lemma {:induction false} RoutedWalkIsClean(p: Primitives, s: State, at: nat, seen: set<string>, scope: SubjectScope)
    requires RowsOk(p, s.memories) && Routed(s) && at < |s.memories|
    requires OneScope(p, s.memories, KeyOf(p, s.memories[at]), scope)
    requires forall j | at <= j < |s.memories| :: s.memories[j].id !in seen
    ensures CleanWalk(Walk(s.memories, s.relations, at, seen), scope)
    ensures forall k | 0 <= k < |Walk(s.memories, s.relations, at, seen)| ::
      exists j | at <= j < |s.memories| :: Walk(s.memories, s.relations, at, seen)[k].subjectId == s.memories[j].id
    decreases |s.memories| - at
  {
    var ms, relations := s.memories, s.relations;
    var walk := Walk(ms, relations, at, seen);
    assert RoutedRow(relations, ms[at]);
    OnlySupersededRoute(p, ms, at);
    if ms[at].status == Superseded {
      RouteIsForward(p, ms, at);
      var next := FindMemory(ms, ms[at].supersedesId);
      var seen' := seen + {ms[at].id};
      RoutedWalkIsClean(p, s, next, seen', scope);
      var rest := Walk(ms, relations, next, seen');
      assert walk == [LinkAt(ms, relations, at)] + rest;
      forall k | 0 <= k < |walk| ensures exists j | at <= j < |ms| :: walk[k].subjectId == ms[j].id {
        if k == 0 {
          assert walk[0].subjectId == ms[at].id;
        } else {
          assert walk[k] == rest[k - 1];
          var j :| next <= j < |ms| && rest[k - 1].subjectId == ms[j].id;
          assert at <= j < |ms|;
        }
      }
      forall k | 0 < k < |walk| ensures walk[k].subjectId != walk[0].subjectId {
        var j :| next <= j < |ms| && rest[k - 1].subjectId == ms[j].id;
      }
    } else {
      assert walk == [LinkAt(ms, relations, at)];
      assert walk[0].subjectId == ms[at].id;
    }
  }

  /** A 'supersedes' relation from a row that is not superseded makes the walk from it fail. */
  lemma UnroutedWalkFails(s: State, at: nat, scope: SubjectScope)
    requires at < |s.memories| && s.memories[at].status != Superseded
    requires SuccessorAt(s.memories, s.relations, s.memories[at].id) >= 0
    requires forall i | 0 <= i < |s.memories| :: s.memories[i].id != ""
    ensures !CleanWalk(Walk(s.memories, s.relations, at, {}), scope)
  {
    var walk := Walk(s.memories, s.relations, at, {});
    assert walk[0] == LinkAt(s.memories, s.relations, at);
    assert walk[0].successorId != "" && !walk[0].superseded;
  }
}
