/** What shared chain keys do to the store: which rows share a chain, and what a save across two scopes leaves. */
module StoreCollisions {
  import opened Text
  import opened Records
  import opened ChainKeys
  import opened StoreModel
  import opened RevisionChains
  import opened Verification
  import opened StoreInvariants
  import opened StoreRuns
  import opened StoreTheorems
  import ReceiptLog

  /** Rows in accepted scopes keep to their own chains exactly when no two of them have topics and scopes whose
      names run together. */
  lemma SeparateIff(p: Primitives, ms: seq<Memory>)
    requires forall topic, scope :: p.chainKey(topic, scope) == ChainKey(topic, scope)
    requires forall i | 0 <= i < |ms| :: ValidScope(ms[i].scope)
    ensures KeysSeparate(p, ms) <==>
            forall i, j | 0 <= i < |ms| && 0 <= j < |ms| && |ms[i].topicKey| <= |ms[j].topicKey| &&
                          SharesChain(ms[i].topicKey, ms[i].scope, ms[j].topicKey, ms[j].scope) ::
              ms[i].topicKey == ms[j].topicKey && ms[i].scope == ms[j].scope
  {
    forall i, j | 0 <= i < |ms| && 0 <= j < |ms| && |ms[i].topicKey| <= |ms[j].topicKey|
      ensures KeyOf(p, ms[i]) == KeyOf(p, ms[j]) <==> SharesChain(ms[i].topicKey, ms[i].scope, ms[j].topicKey, ms[j].scope)
    {
      SharesChainIff(ms[i].topicKey, ms[i].scope, ms[j].topicKey, ms[j].scope);
    }
  }

  /** The first revision in an empty store. */
  lemma FirstSave(p: Primitives, m: Memory)
    requires p.signing
    ensures
      var s := SaveState(p, EMPTY, m);
      s.memories == [m] && s.payloads == [RecordedPayload(p, m)] && |s.receipts| == 1
  {
    assert LatestAt(p, [], KeyOf(p, m)) == -1;
  }

  /** A revision that supersedes the only row. */
  lemma SecondSave(p: Primitives, s: State, prior: Memory, m: Memory)
    requires p.signing && s.memories == [prior] && |s.payloads| == |s.receipts| == 1
    requires KeyOf(p, prior) == KeyOf(p, m) && CanVoid(prior.status)
    ensures
      var after := SaveState(p, s, m);
      && after.memories == [Replacing(prior, m), m] && |after.payloads| == |after.receipts| == 3
      && after.payloads[1] == SupersededPayload(p, prior, Replacing(prior, m), m)
  {
    assert LatestAt(p, [prior], KeyOf(p, m)) == 0;
    var payload := SupersededPayload(p, prior, Replacing(prior, m), m);
    var stored := StoredState(p, s, m);
    assert Emit(p, stored, payload).payloads == s.payloads + [payload];
  }

  function TwoSaves(a: SaveInput, idA: string, nowA: string, b: SaveInput, idB: string, nowB: string): seq<Op> {
    [Save(a, idA, nowA), Save(b, idB, nowB)]
  }

  /** Two saves under one key: the second revision supersedes the first. */
  lemma SecondSupersedes(p: Primitives, a: SaveInput, idA: string, nowA: string, b: SaveInput, idB: string, nowB: string)
      returns (m1: Memory, m2: Memory)
    requires p.signing && idA != "" && idB != "" && idA != idB
    requires SaveRefusal(p, EMPTY, a, nowA).None? && SaveRefusal(p, Run(p, [Save(a, idA, nowA)]), b, nowB).None?
    requires p.chainKey(a.topicKey, a.scope) == p.chainKey(b.topicKey, b.scope)
    ensures m1.id == idA && m1.scope == a.scope && m2.id == idB && m2.scope == b.scope
    ensures m1.topicKey == a.topicKey && m1.kind == a.kind && m2.topicKey == b.topicKey && m2.kind == b.kind
    ensures
      var ops := TwoSaves(a, idA, nowA, b, idB, nowB);
      var s := Run(p, ops);
      && LegalRun(p, ops) && s.memories == [Replacing(m1, m2), m2] && |s.payloads| == |s.receipts| == 3
      && s.payloads[1] == SupersededPayload(p, m1, Replacing(m1, m2), m2)
  {
    hide SaveState, SupersededPayload, Envelope, SaveRefusal;
    var ops := TwoSaves(a, idA, nowA, b, idB, nowB);
    assert ops[..1] == [Save(a, idA, nowA)] && ops[..1][..0] == [];
    m1 := RevisionFor(p, EMPTY, a, idA, nowA);
    FirstSave(p, m1);
    var s1 := Run(p, ops[..1]);
    assert s1 == SaveState(p, EMPTY, m1);
    m2 := RevisionFor(p, s1, b, idB, nowB);
    SecondSave(p, s1, m1, m2);
    assert Run(p, ops) == SaveState(p, s1, m2);
    assert FindMemory(s1.memories, idB) < 0;
    assert LegalRun(p, ops[..1]);
  }

  /** Two revisions whose keys collide: the second one supersedes the first across scopes, and the receipt of
      that supersession carries the wrong scope and fails its check. */
  lemma CollidingSavesFailTheScope(p: Primitives, a: SaveInput, idA: string, nowA: string, b: SaveInput, idB: string, nowB: string)
    requires p.signing && idA != "" && idB != "" && idA != idB
    requires SaveRefusal(p, EMPTY, a, nowA).None? && SaveRefusal(p, Run(p, [Save(a, idA, nowA)]), b, nowB).None?
    requires p.chainKey(a.topicKey, a.scope) == p.chainKey(b.topicKey, b.scope) && ScopeOf(a.scope) != ScopeOf(b.scope)
    ensures
      var ops := TwoSaves(a, idA, nowA, b, idB, nowB);
      var s := Run(p, ops);
      && LegalRun(p, ops) && |s.memories| == 2 && s.memories[0].id == idA && s.memories[0].supersedesId == idB
      && |s.receipts| == |s.payloads| == 3 && StoredScope(s, s.receipts[1]).Some?
      && VerifyTenantCompanyScope(s.receipts[1], s.payloads[1], StoredScope(s, s.receipts[1]).value).status == Failed
  {
    hide Run, LegalRun, SaveRefusal, Step;
    var ops := TwoSaves(a, idA, nowA, b, idB, nowB);
    var m1, m2 := SecondSupersedes(p, a, idA, nowA, b, idB, nowB);
    var s := Run(p, ops);
    RunKeepsInv(p, ops);
    assert ReceiptLog.EmittedAt(p, s.receipts, s.payloads, 1);
    assert s.memories[..1] == [s.memories[0]];
    assert FindMemory(s.memories, idA) == 0 && FindMemory(s.memories, idB) == 1;
    ReceiptScopeIff(p, ops, 1);
  }

  /** So it is for every accepted scope whose names can be read in two ways: another accepted scope takes over
      its chain. */
  lemma SplittableScopesAreTakenOver(p: Primitives, a: SaveInput, idA: string, nowA: string, idB: string, nowB: string)
      returns (b: SaveInput)
    requires p.signing && idA != "" && idB != "" && idA != idB
    requires forall topic, scope :: p.chainKey(topic, scope) == ChainKey(topic, scope)
    requires SaveRefusal(p, EMPTY, a, nowA).None? && a.ruleLinks == []
    requires ValidScope(a.scope) && a.scope.Company? && Splittable(a.scope)
    ensures ValidScope(b.scope) && b == a.(scope := b.scope) && b.scope != a.scope
    ensures
      var s := Run(p, TwoSaves(a, idA, nowA, b, idB, nowB));
      && LegalRun(p, TwoSaves(a, idA, nowA, b, idB, nowB)) && |s.memories| == 2
      && s.memories[0].id == idA && s.memories[0].supersedesId == idB
      && |s.receipts| == |s.payloads| == 3 && StoredScope(s, s.receipts[1]).Some?
      && VerifyTenantCompanyScope(s.receipts[1], s.payloads[1], StoredScope(s, s.receipts[1]).value).status == Failed
  {
    hide Run, LegalRun, Step, Splittable, ValidScope, VerifyTenantCompanyScope, StoredScope;
    var scope := Twin(a.topicKey, a.scope);
    b := a.(scope := scope);
    CollidingSavesFailTheScope(p, a, idA, nowA, b, idB, nowB);
  }
}
