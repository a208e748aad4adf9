/** Fiscal scope bindings: the closed vocabulary and the canonical bytes. */
module FiscalScope {
  import opened Text
  import opened Framing

  datatype Binding = Binding(
    tenant: string, organization: string, company: string, fiscalPeriod: string, ledgerBook: string,
    operationType: string, sourceSnapshot: string, policyVersion: string, actor: string, authorityLevel: string)

  const VERSION := "v1"

  const FIELD_KEYS: seq<string> :=
    ["tenant", "organization", "company", "fiscalPeriod", "ledgerBook", "operationType", "sourceSnapshot",
     "policyVersion", "actor", "authorityLevel"]

  const KEYS: seq<string> := ["version"] + FIELD_KEYS

  function FieldsOf(b: Binding): seq<string> {
    [b.tenant, b.organization, b.company, b.fiscalPeriod, b.ledgerBook, b.operationType, b.sourceSnapshot,
     b.policyVersion, b.actor, b.authorityLevel]
  }

  function BindingOf(fields: seq<string>): Binding
    requires |fields| == 10
  {
    Binding(fields[0], fields[1], fields[2], fields[3], fields[4], fields[5], fields[6], fields[7], fields[8], fields[9])
  }

  /** The authority that an operation of the v1 vocabulary needs; "" outside it. */
  function LevelOf(operation: string): string {
    if operation in {"memory.save", "memory.supersede", "evidence.store", "evidence.link", "rule.link", "close.create"}
    then "PREPARE"
    else if operation in {"context.read", "review.queue", "review.detail", "timeline.read", "evidence.get"} then "ASK"
    else if operation in {"reconstruct.read", "verify.read"} then "ANALYZE"
    else if operation in {"memory.approve", "close.approve", "period.reopen", "period.write-check"} then "EXECUTE"
    else ""
  }

  predicate IsDigit(c: char) {
    '0' <= c <= '9'
  }

  /** YYYYMM with a month of the calendar. */
  predicate ValidPeriod(s: string) {
    |s| == 6 && (forall i | 0 <= i < 6 :: IsDigit(s[i])) &&
    ((s[4] == '0' && s[5] != '0') || (s[4] == '1' && s[5] <= '2'))
  }

  predicate LowerHex64(s: string) {
    |s| == 64 && forall i | 0 <= i < 64 :: IsDigit(s[i]) || 'a' <= s[i] <= 'f'
  }

  predicate ValidField(s: string) {
    !Blank(s) && NulFree(s)
  }

  /** A binding that `decodeFiscalScopeV1` accepts. */
  predicate Valid(validRuc: string -> bool, b: Binding) {
    && (forall i | 0 <= i < |FieldsOf(b)| :: ValidField(FieldsOf(b)[i]))
    && validRuc(b.company) && ValidPeriod(b.fiscalPeriod) && LowerHex64(b.sourceSnapshot)
    && LevelOf(b.operationType) == b.authorityLevel
  }

  /** The month of a period of six digits. */
  function Month(s: string): int
    requires |s| == 6
  {
    10 * (s[4] as int - '0' as int) + (s[5] as int - '0' as int)
  }

  /** The operations of the vocabulary, by the authority they need. */
  predicate Needs(operation: string, level: string) {
    match level
    case "ASK" => operation in {"context.read", "review.queue", "review.detail", "timeline.read", "evidence.get"}
    case "ANALYZE" => operation in {"reconstruct.read", "verify.read"}
    case "PREPARE" =>
      operation in {"memory.save", "memory.supersede", "evidence.store", "evidence.link", "rule.link", "close.create"}
    case "EXECUTE" => operation in {"memory.approve", "close.approve", "period.reopen", "period.write-check"}
    case _ => false
  }

  lemma LevelIsNeeded(operation: string, level: string)
    ensures level != "" ==> (LevelOf(operation) == level <==> Needs(operation, level))
  {
    assert |"ASK"| == 3 && |"ANALYZE"| == 7 && |"PREPARE"| == 7 && |"EXECUTE"| == 7;
    assert "ANALYZE"[0] == 'A' && "PREPARE"[0] == 'P' && "EXECUTE"[0] == 'E';
  }

  /** What an accepted binding is: ten texts that are not blank and hold no NUL, a valid RUC, a month of the calendar, a
      digest in lower-case hexadecimal, and an operation of the vocabulary under exactly the authority that it needs. */
  lemma ValidIff(validRuc: string -> bool, b: Binding)
    ensures Valid(validRuc, b) <==>
            && (forall s | s in {b.tenant, b.organization, b.company, b.fiscalPeriod, b.ledgerBook, b.operationType,
                                 b.sourceSnapshot, b.policyVersion, b.actor, b.authorityLevel} :: !Blank(s) && NUL !in s)
            && validRuc(b.company)
            && |b.fiscalPeriod| == 6 && (forall c | c in b.fiscalPeriod :: '0' <= c <= '9') && 1 <= Month(b.fiscalPeriod) <= 12
            && |b.sourceSnapshot| == 64 && (forall c | c in b.sourceSnapshot :: c in "0123456789abcdef")
            && Needs(b.operationType, b.authorityLevel)
  {
    hide Blank, LevelOf, Needs;
    FieldsAreValid(b);
    PeriodIff(b.fiscalPeriod);
    HexIff(b.sourceSnapshot);
    LevelIsNeeded(b.operationType, b.authorityLevel);
    BlankAndUnneeded(b.operationType);
  }

  lemma BlankAndUnneeded(operation: string)
    ensures Blank("") && !Needs(operation, "")
  {
  }

  lemma FieldsAreValid(b: Binding)
    ensures (forall i | 0 <= i < |FieldsOf(b)| :: ValidField(FieldsOf(b)[i])) <==>
            forall s | s in {b.tenant, b.organization, b.company, b.fiscalPeriod, b.ledgerBook, b.operationType,
                             b.sourceSnapshot, b.policyVersion, b.actor, b.authorityLevel} :: !Blank(s) && NUL !in s
  {
    hide Blank;
    var fs := FieldsOf(b);
    var all := {b.tenant, b.organization, b.company, b.fiscalPeriod, b.ledgerBook, b.operationType,
                b.sourceSnapshot, b.policyVersion, b.actor, b.authorityLevel};
    assert forall i | 0 <= i < |fs| :: fs[i] in all;
    assert fs[0] == b.tenant && fs[1] == b.organization && fs[2] == b.company && fs[3] == b.fiscalPeriod && fs[4] == b.ledgerBook;
    assert fs[5] == b.operationType && fs[6] == b.sourceSnapshot && fs[7] == b.policyVersion && fs[8] == b.actor && fs[9] == b.authorityLevel;
    forall s | s in all ensures exists i :: 0 <= i < |fs| && fs[i] == s {
    }
    forall s ensures ValidField(s) <==> !Blank(s) && NUL !in s {
    }
  }

  lemma PeriodIff(s: string)
    ensures ValidPeriod(s) <==> |s| == 6 && (forall c | c in s :: '0' <= c <= '9') && 1 <= Month(s) <= 12
  {
    if |s| == 6 {
      assert forall i | 0 <= i < 6 :: s[i] in s;
      if forall i | 0 <= i < 6 :: IsDigit(s[i]) {
        forall c | c in s ensures '0' <= c <= '9' {
          var i :| 0 <= i < 6 && s[i] == c;
          assert IsDigit(s[i]);
        }
      }
    }
  }

  lemma HexIff(s: string)
    ensures LowerHex64(s) <==> |s| == 64 && forall c | c in s :: c in "0123456789abcdef"
  {
    forall c: char ensures c in "0123456789abcdef" <==> '0' <= c <= '9' || 'a' <= c <= 'f' {
      HexDigit(c);
    }
    if |s| == 64 && forall c | c in s :: c in "0123456789abcdef" {
      forall i | 0 <= i < 64 ensures IsDigit(s[i]) || 'a' <= s[i] <= 'f' {
        assert s[i] in s;
      }
    }
  }

  lemma HexDigit(c: char)
    ensures c in "0123456789abcdef" <==> '0' <= c <= '9' || 'a' <= c <= 'f'
  {
    var h := "0123456789abcdef";
    if '0' <= c <= '9' {
      assert h[c as int - '0' as int] == c;
    } else if 'a' <= c <= 'f' {
      assert h[10 + c as int - 'a' as int] == c;
    }
  }

  // ---------------------------------------------------------- canonical bytes

  function Entry(key: string, value: string): Bytes {
    Encode(key) + [EQUALS] + Frame(Encode(value))
  }

  function Entries(keys: seq<string>, values: seq<string>): Bytes
    requires |keys| == |values|
  {
    if keys == [] then [] else Entry(keys[0], values[0]) + Entries(keys[1..], values[1..])
  }

  function CanonicalBytes(b: Binding): Bytes {
    Encode("drenyra:fiscal-scope:v1\0") + Entries(FIELD_KEYS, FieldsOf(b))
  }

  /** The loop of `canonicalFiscalScopeBytes`, over the bytes it encodes to. */
  method CanonicalFiscalScopeBytes(b: Binding) returns (canonical: Bytes)
    ensures canonical == CanonicalBytes(b)
  {
    canonical := Encode("drenyra:fiscal-scope:v1\0");
    var values := FieldsOf(b);
    for i := 0 to |FIELD_KEYS|
      invariant canonical + Entries(FIELD_KEYS[i..], values[i..]) == CanonicalBytes(b)
    {
      ghost var before := canonical;
      canonical := AppendEntry(canonical, FIELD_KEYS[i], values[i]);
      EntriesStep(before, FIELD_KEYS, values, i);
    }
  }

  lemma EntriesStep(start: Bytes, keys: seq<string>, values: seq<string>, i: nat)
    requires |keys| == |values| && i < |keys|
    ensures (start + Entry(keys[i], values[i])) + Entries(keys[i + 1..], values[i + 1..]) == start + Entries(keys[i..], values[i..])
  {
    assert keys[i..][1..] == keys[i + 1..] && values[i..][1..] == values[i + 1..];
    assert keys[i..][0] == keys[i] && values[i..][0] == values[i];
    var entry, rest := Entry(keys[i], values[i]), Entries(keys[i + 1..], values[i + 1..]);
    assert (start + entry) + rest == start + (entry + rest);
  }

  method AppendEntry(start: Bytes, key: string, value: string) returns (canonical: Bytes)
    ensures canonical == start + Entry(key, value)
  {
    var bytes := Encode(value);
    canonical := start + Encode(key);
    canonical := canonical + [EQUALS];
    canonical := canonical + Decimal(|bytes|);
    canonical := canonical + [COLON];
    canonical := canonical + bytes;
    canonical := canonical + [END];
  }

  /** What follows the key and the equals sign. */
  lemma EntrySplits(key: string, value: string, rest: Bytes)
    ensures |Entry(key, value) + rest| > |Encode(key)|
    ensures (Entry(key, value) + rest)[|Encode(key)| + 1..] == Frame(Encode(value)) + rest
  {
    var head, frame := Encode(key) + [EQUALS], Frame(Encode(value));
    assert Entry(key, value) + rest == head + (frame + rest);
    assert (head + (frame + rest))[|head|..] == frame + rest;
  }

  lemma {:induction false} EntriesAreReadable(keys: seq<string>, a: seq<string>, b: seq<string>)
    requires |keys| == |a| == |b| && Entries(keys, a) == Entries(keys, b)
    ensures a == b
  {
    if keys != [] {
      var restA, restB := Entries(keys[1..], a[1..]), Entries(keys[1..], b[1..]);
      EntrySplits(keys[0], a[0], restA);
      EntrySplits(keys[0], b[0], restB);
      FrameIsReadable(Encode(a[0]), restA, Encode(b[0]), restB);
      EncodeInjective(a[0], b[0]);
      EntriesAreReadable(keys[1..], a[1..], b[1..]);
      assert a == [a[0]] + a[1..] && b == [b[0]] + b[1..];
    }
  }

  /** Equal canonical bytes mean equal bindings, whatever the fields hold. */
  lemma CanonicalBytesAreInjective(a: Binding, b: Binding)
    requires CanonicalBytes(a) == CanonicalBytes(b)
    ensures a == b
  {
    var n := |Encode("drenyra:fiscal-scope:v1\0")|;
    assert Entries(FIELD_KEYS, FieldsOf(a)) == CanonicalBytes(a)[n..];
    assert Entries(FIELD_KEYS, FieldsOf(b)) == CanonicalBytes(b)[n..];
    EntriesAreReadable(FIELD_KEYS, FieldsOf(a), FieldsOf(b));
    assert BindingOf(FieldsOf(a)) == a && BindingOf(FieldsOf(b)) == b;
  }
}
