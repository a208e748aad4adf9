/** The hand-written scanner of fiscal scope bindings: exactly which texts it accepts, and as what. */
module FiscalScopeJson {
  import opened Text
  import opened Records
  import opened FiscalScope
  import Json

  datatype ScopeError = Required | Invalid | UnsupportedVersion

  datatype Parsed<+T> = Accepted(value: T) | Refused(error: ScopeError)

  /** The string literal decoder of the platform (`JSON.parse` on one literal). */
  type Decoder = string -> Option<string>

  // ------------------------------------------------------------------- tokens

  /** The first position from `start` on that is not white space. */
  function Skip(text: string, start: nat): (next: nat)
    requires start <= |text|
    ensures start <= next <= |text|
    ensures forall k | start <= k < next :: IsSpace(text[k])
    ensures next < |text| ==> !IsSpace(text[next])
    decreases |text| - start
  {
    if start < |text| && IsSpace(text[start]) then Skip(text, start + 1) else start
  }

  method SkipSpace(text: string, start: nat) returns (next: nat)
    requires start <= |text|
    ensures next == Skip(text, start)
  {
    next := start;
    while next < |text| && IsSpace(text[next])
      invariant start <= next <= |text| && Skip(text, start) == Skip(text, next)
    {
      next := next + 1;
    }
  }

  /** The closing quote of a literal whose body begins at `cursor`. */
  function LiteralEnd(text: string, cursor: nat): (end: Option<nat>)
    ensures end.Some? ==> cursor <= end.value < |text| && text[end.value] == '"'
    decreases |text| - cursor
  {
    if cursor >= |text| then None
    else if text[cursor] == '\\' then LiteralEnd(text, cursor + 2)
    else if text[cursor] == '"' then Some(cursor)
    else LiteralEnd(text, cursor + 1)
  }

  function ReadString(decode: Decoder, text: string, start: nat): (r: Parsed<(string, nat)>)
    ensures r.Accepted? ==> start < r.value.1 <= |text|
  {
    if start >= |text| || text[start] != '"' then Refused(Invalid)
    else match LiteralEnd(text, start + 1)
         case None => Refused(Invalid)
         case Some(end) =>
           match decode(text[start..end + 1])
           case None => Refused(Invalid)
           case Some(value) => Accepted((value, end + 1))
  }

  method ReadLiteral(decode: Decoder, text: string, start: nat) returns (r: Parsed<(string, nat)>)
    ensures r == ReadString(decode, text, start)
  {
    if start >= |text| || text[start] != '"' {
      return Refused(Invalid);
    }
    var cursor := start + 1;
    while cursor < |text|
      invariant start < cursor && LiteralEnd(text, start + 1) == LiteralEnd(text, cursor)
      decreases |text| - cursor
    {
      if text[cursor] == '\\' {
        cursor := cursor + 2;
        continue;
      }
      if text[cursor] == '"' {
        var value := decode(text[start..cursor + 1]);
        if value.None? {
          return Refused(Invalid);
        }
        return Accepted((value.value, cursor + 1));
      }
      cursor := cursor + 1;
    }
    r := Refused(Invalid);
  }

  // ------------------------------------------------------------------- members

  /** The mark after member k: a comma, and a closing brace after the last one. */
  function MarkAfter(keys: seq<string>, k: nat): char {
    if k == |keys| - 1 then '}' else ','
  }

  /** The key of a member and its colon: the position after them. */
  function KeyPart(decode: Decoder, text: string, start: nat, expected: string): (r: Parsed<nat>)
    requires start <= |text|
    ensures r.Accepted? ==> start < r.value <= |text|
  {
    var atKey := Skip(text, start);
    if atKey < |text| && text[atKey] == '}' then Refused(Required)
    else match ReadString(decode, text, atKey)
         case Refused(e) => Refused(e)
         case Accepted((key, afterKey)) =>
           var colon := Skip(text, afterKey);
           if key != expected then Refused(Invalid)
           else if colon >= |text| || text[colon] != ':' then Refused(Invalid)
           else Accepted(colon + 1)
  }

  /** The value of a member and its mark: the value and the position after them. */
  function ValuePart(decode: Decoder, text: string, start: nat, keys: seq<string>, k: nat): (r: Parsed<(string, nat)>)
    requires start <= |text|
    ensures r.Accepted? ==> start < r.value.1 <= |text|
  {
    match ReadString(decode, text, Skip(text, start))
    case Refused(e) => Refused(e)
    case Accepted((value, afterValue)) =>
      var mark := Skip(text, afterValue);
      if k == 0 && value != VERSION then Refused(UnsupportedVersion)
      else if mark >= |text| || text[mark] != MarkAfter(keys, k) then
        Refused(if k == |keys| - 1 then Invalid else Required)
      else Accepted((value, mark + 1))
  }

  /** One member: its value and the position after its mark. */
  function Member(decode: Decoder, text: string, start: nat, keys: seq<string>, k: nat): (r: Parsed<(string, nat)>)
    requires start <= |text| && k < |keys|
    ensures r.Accepted? ==> start < r.value.1 <= |text|
  {
    match KeyPart(decode, text, start, keys[k])
    case Refused(e) => Refused(e)
    case Accepted(afterColon) => ValuePart(decode, text, afterColon, keys, k)
  }

  /** The members from k on: their values and the position after the closing brace. */
  function Members(decode: Decoder, text: string, start: nat, keys: seq<string>, k: nat): (r: Parsed<(seq<string>, nat)>)
    requires start <= |text| && k <= |keys|
    ensures r.Accepted? ==> start <= r.value.1 <= |text| && |r.value.0| == |keys| - k
    decreases |keys| - k
  {
    if k == |keys| then Accepted(([], start))
    else match Member(decode, text, start, keys, k)
         case Refused(e) => Refused(e)
         case Accepted((value, next)) =>
           match Members(decode, text, next, keys, k + 1)
           case Refused(e) => Refused(e)
           case Accepted((values, end)) => Accepted(([value] + values, end))
  }

  /** The values of a whole document whose keys are `keys`. */
  function Scan(decode: Decoder, text: string, keys: seq<string>): (r: Parsed<seq<string>>)
    ensures r.Accepted? ==> |r.value| == |keys|
  {
    var brace := Skip(text, 0);
    if brace >= |text| || text[brace] != '{' then Refused(Invalid)
    else match Members(decode, text, brace + 1, keys, 0)
         case Refused(e) => Refused(e)
         case Accepted((values, end)) => if Skip(text, end) != |text| then Refused(Invalid) else Accepted(values)
  }

  function Decoded(validRuc: string -> bool, values: seq<string>): Parsed<Binding>
    requires |values| == 11
  {
    var binding := BindingOf(values[1..]);
    if Valid(validRuc, binding) then Accepted(binding) else Refused(Invalid)
  }

  function Parse(decode: Decoder, validRuc: string -> bool, text: string): Parsed<Binding> {
    match Scan(decode, text, KEYS)
    case Refused(e) => Refused(e)
    case Accepted(values) => Decoded(validRuc, values)
  }

  method ReadKey(decode: Decoder, text: string, start: nat, expected: string) returns (r: Parsed<nat>)
    requires start <= |text|
    ensures r == KeyPart(decode, text, start, expected)
  {
    var cursor := SkipSpace(text, start);
    if cursor < |text| && text[cursor] == '}' {
      return Refused(Required);
    }
    var key := ReadLiteral(decode, text, cursor);
    if key.Refused? {
      return Refused(key.error);
    }
    cursor := SkipSpace(text, key.value.1);
    if key.value.0 != expected {
      return Refused(Invalid);
    }
    if cursor >= |text| || text[cursor] != ':' {
      return Refused(Invalid);
    }
    r := Accepted(cursor + 1);
  }

  method ReadValue(decode: Decoder, text: string, start: nat, keys: seq<string>, k: nat) returns (r: Parsed<(string, nat)>)
    requires start <= |text|
    ensures r == ValuePart(decode, text, start, keys, k)
  {
    var cursor := SkipSpace(text, start);
    var value := ReadLiteral(decode, text, cursor);
    if value.Refused? {
      return Refused(value.error);
    }
    cursor := SkipSpace(text, value.value.1);
    if k == 0 && value.value.0 != VERSION {
      return Refused(UnsupportedVersion);
    }
    var last := k == |keys| - 1;
    if cursor >= |text| || text[cursor] != (if last then '}' else ',') {
      return Refused(if last then Invalid else Required);
    }
    r := Accepted((value.value.0, cursor + 1));
  }

  /** The loop over the keys in canonical order. */
  method ReadMembers(decode: Decoder, text: string, start: nat, keys: seq<string>) returns (r: Parsed<(seq<string>, nat)>)
    requires start <= |text|
    ensures r == Members(decode, text, start, keys, 0)
  {
    var cursor := start;
    var values: seq<string> := [];
    PrefixedNothing(Members(decode, text, start, keys, 0));
    for k := 0 to |keys|
      invariant 0 <= cursor <= |text| && |values| == k
      invariant Members(decode, text, start, keys, 0) == Prefixed(values, Members(decode, text, cursor, keys, k))
    {
      var key := ReadKey(decode, text, cursor, keys[k]);
      if key.Refused? {
        return Refused(key.error);
      }
      var value := ReadValue(decode, text, key.value, keys, k);
      if value.Refused? {
        return Refused(value.error);
      }
      MembersStep(decode, text, cursor, keys, k, value.value);
      PrefixedStep(values, value.value.0, Members(decode, text, value.value.1, keys, k + 1));
      values := values + [value.value.0];
      cursor := value.value.1;
    }
    assert values + [] == values;
    r := Accepted((values, cursor));
  }

  lemma MembersStep(decode: Decoder, text: string, start: nat, keys: seq<string>, k: nat, value: (string, nat))
    requires start <= |text| && k < |keys| && value.1 <= |text| && Member(decode, text, start, keys, k) == Accepted(value)
    ensures Members(decode, text, start, keys, k) == Prefixed([value.0], Members(decode, text, value.1, keys, k + 1))
  {
  }

  method ScanDocument(decode: Decoder, text: string, keys: seq<string>) returns (r: Parsed<seq<string>>)
    ensures r == Scan(decode, text, keys)
  {
    var cursor := SkipSpace(text, 0);
    if cursor >= |text| || text[cursor] != '{' {
      return Refused(Invalid);
    }
    var members := ReadMembers(decode, text, cursor + 1, keys);
    if members.Refused? {
      return Refused(members.error);
    }
    cursor := SkipSpace(text, members.value.1);
    if cursor != |text| {
      return Refused(Invalid);
    }
    r := Accepted(members.value.0);
  }

  /** `parseFiscalScopeV1JSON`. */
  method ParseFiscalScopeV1JSON(decode: Decoder, validRuc: string -> bool, text: string) returns (r: Parsed<Binding>)
    ensures r == Parse(decode, validRuc, text)
  {
    var scanned := ScanDocument(decode, text, KEYS);
    if scanned.Refused? {
      return Refused(scanned.error);
    }
    var binding := BindingOf(scanned.value[1..]);
    if !Valid(validRuc, binding) {
      return Refused(Invalid);
    }
    r := Accepted(binding);
  }

  ghost function Prefixed(values: seq<string>, r: Parsed<(seq<string>, nat)>): Parsed<(seq<string>, nat)> {
    match r
    case Refused(e) => Refused(e)
    case Accepted((rest, end)) => Accepted((values + rest, end))
  }

  lemma PrefixedNothing(r: Parsed<(seq<string>, nat)>)
    ensures Prefixed([], r) == r
  {
    if r.Accepted? {
      assert [] + r.value.0 == r.value.0;
    }
  }

  lemma PrefixedStep(values: seq<string>, value: string, r: Parsed<(seq<string>, nat)>)
    ensures Prefixed(values, Prefixed([value], r)) == Prefixed(values + [value], r)
  {
    if r.Accepted? {
      assert values + ([value] + r.value.0) == values + [value] + r.value.0;
    }
  }

  // ------------------------------------------------------------------ layouts

  /** A string literal: a quote, a body whose first unescaped quote is the last character. */
  predicate IsLiteral(raw: string) {
    |raw| >= 2 && raw[0] == '"' && LiteralEnd(raw, 1) == Some(|raw| - 1)
  }

  /** One member as written: white space around the tokens and the two literals. */
  datatype Slot = Slot(beforeKey: string, key: string, afterKey: string, beforeValue: string, value: string, afterValue: string)

  predicate ValidSlot(s: Slot) {
    Gap(s.beforeKey) && Gap(s.afterKey) && Gap(s.beforeValue) && Gap(s.afterValue) && IsLiteral(s.key) && IsLiteral(s.value)
  }

  function SlotText(s: Slot, mark: char): string {
    s.beforeKey + s.key + s.afterKey + [':'] + s.beforeValue + s.value + s.afterValue + [mark]
  }

  /** The members from k on, as written. */
  function SlotsText(slots: seq<Slot>, keys: seq<string>, k: nat): string
    requires |slots| + k == |keys|
    decreases |slots|
  {
    if slots == [] then "" else SlotText(slots[0], MarkAfter(keys, k)) + SlotsText(slots[1..], keys, k + 1)
  }

  /** `text` holds `part` at position `at`. */
  predicate HoldsAt(text: string, at: nat, part: string)
    decreases |part|
  {
    if part == "" then at <= |text|
    else at < |text| && text[at] == part[0] && HoldsAt(text, at + 1, part[1..])
  }

  lemma HoldsChar(text: string, at: nat, c: char)
    ensures HoldsAt(text, at, [c]) <==> at < |text| && text[at] == c
  {
    assert [c][1..] == "";
  }

  /** White space only. */
  predicate Gap(s: string) {
    s == "" || (IsSpace(s[0]) && Gap(s[1..]))
  }

  lemma {:induction false} HoldsSlice(text: string, at: nat, part: string)
    ensures HoldsAt(text, at, part) <==> at + |part| <= |text| && text[at..at + |part|] == part
    decreases |part|
  {
    if part != "" {
      HoldsSlice(text, at + 1, part[1..]);
      if at + |part| <= |text| {
        var slice := text[at..at + |part|];
        assert slice[1..] == text[at + 1..at + |part|];
        assert part == [part[0]] + part[1..] && slice == [slice[0]] + slice[1..];
      }
    }
  }

  lemma {:induction false} SkipStops(text: string, start: nat, gap: string)
    requires HoldsAt(text, start, gap) && Gap(gap)
    requires start + |gap| >= |text| || !IsSpace(text[start + |gap|])
    ensures start + |gap| <= |text| && Skip(text, start) == start + |gap|
    decreases |gap|
  {
    if gap != "" {
      SkipStops(text, start + 1, gap[1..]);
    }
  }

  lemma {:induction false} LiteralEndShifts(text: string, at: nat, raw: string, cursor: nat)
    requires at + |raw| <= |text| && text[at..at + |raw|] == raw && LiteralEnd(raw, cursor).Some?
    ensures LiteralEnd(text, at + cursor) == Some(at + LiteralEnd(raw, cursor).value)
    decreases |raw| - cursor
  {
    assert raw[cursor] == text[at + cursor];
    if raw[cursor] == '\\' {
      LiteralEndShifts(text, at, raw, cursor + 2);
    } else if raw[cursor] != '"' {
      LiteralEndShifts(text, at, raw, cursor + 1);
    }
  }

  lemma LiteralReads(decode: Decoder, text: string, at: nat, raw: string)
    requires HoldsAt(text, at, raw) && IsLiteral(raw)
    ensures ReadString(decode, text, at) ==
            match decode(raw) case None => Refused(Invalid) case Some(value) => Accepted((value, at + |raw|))
  {
    HoldsSlice(text, at, raw);
    LiteralEndShifts(text, at, raw, 1);
  }

  lemma {:induction false} HoldsParts(text: string, at: nat, a: string, b: string)
    requires HoldsAt(text, at, a + b)
    ensures HoldsAt(text, at, a) && HoldsAt(text, at + |a|, b)
    decreases |a|
  {
    if a == "" {
      assert a + b == b;
      HoldsSlice(text, at, b);
    } else {
      assert (a + b)[1..] == a[1..] + b;
      HoldsParts(text, at + 1, a[1..], b);
    }
  }

  function SlotLength(s: Slot): nat {
    |s.beforeKey| + |s.key| + |s.afterKey| + 1 + |s.beforeValue| + |s.value| + |s.afterValue| + 1
  }

  /** The tokens of a slot stand one after the other, from `at` on. */
  predicate SlotAt(text: string, at: nat, s: Slot, mark: char) {
    var atKey := at + |s.beforeKey|;
    var afterKey := atKey + |s.key|;
    var colon := afterKey + |s.afterKey|;
    var atValue := colon + 1 + |s.beforeValue|;
    var afterValue := atValue + |s.value|;
    && HoldsAt(text, at, s.beforeKey) && HoldsAt(text, atKey, s.key) && HoldsAt(text, afterKey, s.afterKey)
    && HoldsAt(text, colon, [':']) && HoldsAt(text, colon + 1, s.beforeValue) && HoldsAt(text, atValue, s.value)
    && HoldsAt(text, afterValue, s.afterValue) && HoldsAt(text, afterValue + |s.afterValue|, [mark])
  }

  predicate SlotsAt(text: string, at: nat, slots: seq<Slot>, keys: seq<string>, k: nat)
    decreases |slots|
  {
    slots == [] ||
    (SlotAt(text, at, slots[0], MarkAfter(keys, k)) && SlotsAt(text, at + SlotLength(slots[0]), slots[1..], keys, k + 1))
  }

  function SlotsLength(slots: seq<Slot>): nat {
    if slots == [] then 0 else SlotLength(slots[0]) + SlotsLength(slots[1..])
  }

  lemma SlotParts(text: string, at: nat, s: Slot, mark: char)
    requires HoldsAt(text, at, SlotText(s, mark))
    ensures SlotAt(text, at, s, mark) && |SlotText(s, mark)| == SlotLength(s)
  {
    var t1 := s.beforeKey + s.key;
    var t2 := t1 + s.afterKey;
    var t3 := t2 + [':'];
    var t4 := t3 + s.beforeValue;
    var t5 := t4 + s.value;
    var t6 := t5 + s.afterValue;
    HoldsParts(text, at, t6, [mark]);
    HoldsParts(text, at, t5, s.afterValue);
    HoldsParts(text, at, t4, s.value);
    HoldsParts(text, at, t3, s.beforeValue);
    HoldsParts(text, at, t2, [':']);
    HoldsParts(text, at, t1, s.afterKey);
    HoldsParts(text, at, s.beforeKey, s.key);
  }

  lemma {:induction false} SlotsParts(text: string, at: nat, slots: seq<Slot>, keys: seq<string>, k: nat)
    requires |slots| + k == |keys| && HoldsAt(text, at, SlotsText(slots, keys, k))
    ensures SlotsAt(text, at, slots, keys, k) && |SlotsText(slots, keys, k)| == SlotsLength(slots)
    decreases |slots|
  {
    if slots != [] {
      var first, rest := SlotText(slots[0], MarkAfter(keys, k)), SlotsText(slots[1..], keys, k + 1);
      HoldsParts(text, at, first, rest);
      SlotParts(text, at, slots[0], MarkAfter(keys, k));
      SlotsParts(text, at + |first|, slots[1..], keys, k + 1);
    }
  }

  lemma KeyReads(decode: Decoder, text: string, at: nat, before: string, key: string, after: string, expected: string)
    requires Gap(before) && IsLiteral(key) && Gap(after) && decode(key) == Some(expected)
    requires HoldsAt(text, at, before) && HoldsAt(text, at + |before|, key) && HoldsAt(text, at + |before| + |key|, after)
    requires HoldsAt(text, at + |before| + |key| + |after|, [':'])
    ensures KeyPart(decode, text, at, expected) == Accepted(at + |before| + |key| + |after| + 1)
  {
    SkipStops(text, at, before);
    LiteralReads(decode, text, at + |before|, key);
    SkipStops(text, at + |before| + |key|, after);
  }

  lemma ValueReads(decode: Decoder, text: string, at: nat, before: string, raw: string, after: string, keys: seq<string>,
                   k: nat, value: string)
    requires Gap(before) && IsLiteral(raw) && Gap(after) && decode(raw) == Some(value) && (k == 0 ==> value == VERSION)
    requires HoldsAt(text, at, before) && HoldsAt(text, at + |before|, raw) && HoldsAt(text, at + |before| + |raw|, after)
    requires HoldsAt(text, at + |before| + |raw| + |after|, [MarkAfter(keys, k)])
    ensures ValuePart(decode, text, at, keys, k) == Accepted((value, at + |before| + |raw| + |after| + 1))
  {
    SkipStops(text, at, before);
    LiteralReads(decode, text, at + |before|, raw);
    SkipStops(text, at + |before| + |raw|, after);
  }

  /** A written member is read as what its literals mean. */
  lemma SlotReads(decode: Decoder, text: string, at: nat, s: Slot, keys: seq<string>, k: nat, value: string)
    requires k < |keys| && SlotAt(text, at, s, MarkAfter(keys, k)) && SlotMeans(decode, s, keys[k], k, value)
    ensures Member(decode, text, at, keys, k) == Accepted((value, at + SlotLength(s)))
  {
    KeyReads(decode, text, at, s.beforeKey, s.key, s.afterKey, keys[k]);
    ValueReads(decode, text, at + |s.beforeKey| + |s.key| + |s.afterKey| + 1, s.beforeValue, s.value, s.afterValue, keys, k, value);
  }

  predicate SlotMeans(decode: Decoder, s: Slot, key: string, k: nat, value: string) {
    ValidSlot(s) && decode(s.key) == Some(key) && decode(s.value) == Some(value) && (k == 0 ==> value == VERSION)
  }

  /** The literals of the members mean the keys, in order, and the values. */
  predicate Means(decode: Decoder, slots: seq<Slot>, keys: seq<string>, k: nat, values: seq<string>)
    decreases |slots|
  {
    if slots == [] || values == [] || k >= |keys| then slots == [] && values == [] && k == |keys|
    else SlotMeans(decode, slots[0], keys[k], k, values[0]) && Means(decode, slots[1..], keys, k + 1, values[1..])
  }

  lemma {:induction false} MeansLengths(decode: Decoder, slots: seq<Slot>, keys: seq<string>, k: nat, values: seq<string>)
    requires Means(decode, slots, keys, k, values)
    ensures |slots| == |values| && |slots| + k == |keys|
    decreases |slots|
  {
    if slots != [] {
      MeansLengths(decode, slots[1..], keys, k + 1, values[1..]);
    }
  }

  lemma {:induction false} SlotsRead(decode: Decoder, text: string, at: nat, slots: seq<Slot>, keys: seq<string>, k: nat, values: seq<string>)
    requires Means(decode, slots, keys, k, values) && SlotsAt(text, at, slots, keys, k) && at <= |text|
    ensures Members(decode, text, at, keys, k) == Accepted((values, at + SlotsLength(slots)))
    decreases |slots|
  {
    hide HoldsAt, Gap, IsLiteral, SlotAt, SlotMeans, Member;
    if slots != [] {
      SlotReads(decode, text, at, slots[0], keys, k, values[0]);
      var next := at + SlotLength(slots[0]);
      SlotsRead(decode, text, next, slots[1..], keys, k + 1, values[1..]);
      MembersStep(decode, text, at, keys, k, (values[0], next));
      assert [values[0]] + values[1..] == values;
    }
  }

  // -------------------------------------------------- what is read was written

  lemma {:induction false} LiteralEndUnshifts(text: string, at: nat, end: nat, cursor: nat)
    requires LiteralEnd(text, at + cursor) == Some(end)
    ensures at + cursor <= end < |text| && LiteralEnd(text[at..end + 1], cursor) == Some(end - at)
    decreases |text| - cursor
  {
    var raw := text[at..end + 1];
    if text[at + cursor] == '\\' {
      LiteralEndUnshifts(text, at, end, cursor + 2);
    } else if text[at + cursor] != '"' {
      LiteralEndUnshifts(text, at, end, cursor + 1);
    }
  }

  lemma ReadLiteralIsLiteral(decode: Decoder, text: string, at: nat)
    requires ReadString(decode, text, at).Accepted?
    ensures
      var (value, next) := ReadString(decode, text, at).value;
      next <= |text| && at <= next && IsLiteral(text[at..next]) && decode(text[at..next]) == Some(value)
  {
    LiteralEndUnshifts(text, at, LiteralEnd(text, at + 1).value, 1);
  }

  lemma {:induction false} SkippedIsGap(text: string, start: nat)
    requires start <= |text|
    ensures Gap(text[start..Skip(text, start)])
    decreases |text| - start
  {
    if start < |text| && IsSpace(text[start]) {
      SkippedIsGap(text, start + 1);
      var next := Skip(text, start);
      assert text[start..next] == [text[start]] + text[start + 1..next];
    }
  }

  lemma SliceHolds(text: string, from: nat, to: nat)
    requires from <= to <= |text|
    ensures HoldsAt(text, from, text[from..to])
  {
    HoldsSlice(text, from, text[from..to]);
  }

  /** A key and its colon, as they were read. */
  lemma KeyWasRead(decode: Decoder, text: string, start: nat, expected: string, next: nat)
      returns (before: string, key: string, after: string)
    requires start <= |text| && KeyPart(decode, text, start, expected) == Accepted(next)
    ensures Gap(before) && IsLiteral(key) && Gap(after) && decode(key) == Some(expected)
    ensures HoldsAt(text, start, before) && HoldsAt(text, start + |before|, key)
    ensures HoldsAt(text, start + |before| + |key|, after) && HoldsAt(text, start + |before| + |key| + |after|, [':'])
    ensures next == start + |before| + |key| + |after| + 1
  {
    hide HoldsAt, Gap, IsLiteral, LiteralEnd, Skip;
    var atKey := Skip(text, start);
    var afterKey := ReadString(decode, text, atKey).value.1;
    var colon := Skip(text, afterKey);
    SkippedIsGap(text, start);
    SkippedIsGap(text, afterKey);
    ReadLiteralIsLiteral(decode, text, atKey);
    before, key, after := text[start..atKey], text[atKey..afterKey], text[afterKey..colon];
    SliceHolds(text, start, atKey);
    SliceHolds(text, atKey, afterKey);
    SliceHolds(text, afterKey, colon);
    HoldsChar(text, colon, ':');
  }

  /** A value and its mark, as they were read. */
  lemma ValueWasRead(decode: Decoder, text: string, start: nat, keys: seq<string>, k: nat, value: string, next: nat)
      returns (before: string, raw: string, after: string)
    requires start <= |text| && ValuePart(decode, text, start, keys, k) == Accepted((value, next))
    ensures Gap(before) && IsLiteral(raw) && Gap(after) && decode(raw) == Some(value) && (k == 0 ==> value == VERSION)
    ensures HoldsAt(text, start, before) && HoldsAt(text, start + |before|, raw) && HoldsAt(text, start + |before| + |raw|, after)
    ensures HoldsAt(text, start + |before| + |raw| + |after|, [MarkAfter(keys, k)])
    ensures next == start + |before| + |raw| + |after| + 1
  {
    hide HoldsAt, Gap, IsLiteral, LiteralEnd, Skip;
    var atValue := Skip(text, start);
    var afterValue := ReadString(decode, text, atValue).value.1;
    var mark := Skip(text, afterValue);
    SkippedIsGap(text, start);
    SkippedIsGap(text, afterValue);
    ReadLiteralIsLiteral(decode, text, atValue);
    before, raw, after := text[start..atValue], text[atValue..afterValue], text[afterValue..mark];
    SliceHolds(text, start, atValue);
    SliceHolds(text, atValue, afterValue);
    SliceHolds(text, afterValue, mark);
    HoldsChar(text, mark, MarkAfter(keys, k));
  }

  /** A member that was read was written as a slot. */
  lemma ReadWasSlot(decode: Decoder, text: string, start: nat, keys: seq<string>, k: nat, value: string, next: nat) returns (s: Slot)
    requires start <= |text| && k < |keys| && Member(decode, text, start, keys, k) == Accepted((value, next))
    ensures SlotMeans(decode, s, keys[k], k, value)
    ensures SlotAt(text, start, s, MarkAfter(keys, k)) && next == start + SlotLength(s)
  {
    hide HoldsAt, Gap, IsLiteral, KeyPart, ValuePart;
    var colon := KeyPart(decode, text, start, keys[k]).value;
    var beforeKey, key, afterKey := KeyWasRead(decode, text, start, keys[k], colon);
    var beforeValue, raw, afterValue := ValueWasRead(decode, text, colon, keys, k, value, next);
    s := Slot(beforeKey, key, afterKey, beforeValue, raw, afterValue);
  }

  /** Members that were read were written as slots. */
  lemma {:induction false} ReadWereSlots(decode: Decoder, text: string, start: nat, keys: seq<string>, k: nat,
                                         values: seq<string>, end: nat) returns (slots: seq<Slot>)
    requires start <= |text| && k <= |keys| && Members(decode, text, start, keys, k) == Accepted((values, end))
    ensures Means(decode, slots, keys, k, values) && SlotsAt(text, start, slots, keys, k)
    ensures end == start + SlotsLength(slots)
    decreases |keys| - k
  {
    hide SlotAt, SlotMeans, Member;
    slots := [];
    if k < |keys| {
      var (value, next) := Member(decode, text, start, keys, k).value;
      var first := ReadWasSlot(decode, text, start, keys, k, value, next);
      var rest := ReadWereSlots(decode, text, next, keys, k + 1, values[1..], end);
      slots := [first] + rest;
      assert slots[0] == first && slots[1..] == rest;
    }
  }

  // -------------------------------------------------------------- main results

  /** The text is white space, the members inside braces, and white space, and nothing else. */
  predicate DocumentAt(text: string, lead: string, slots: seq<Slot>, keys: seq<string>, trail: string) {
    var end := |lead| + 1 + SlotsLength(slots);
    && Gap(lead) && Gap(trail) && HoldsAt(text, 0, lead) && HoldsAt(text, |lead|, "{")
    && SlotsAt(text, |lead| + 1, slots, keys, 0) && HoldsAt(text, end, trail) && end + |trail| == |text|
  }

  /** A document: its members are the keys, in order, with these values. */
  ghost predicate Document(decode: Decoder, text: string, keys: seq<string>, values: seq<string>) {
    exists lead, slots, trail :: Means(decode, slots, keys, 0, values) && DocumentAt(text, lead, slots, keys, trail)
  }

  lemma DocumentScans(decode: Decoder, text: string, keys: seq<string>, values: seq<string>)
    requires Document(decode, text, keys, values)
    ensures Scan(decode, text, keys) == Accepted(values)
  {
    hide SlotsAt, Members, Means;
    var lead, slots, trail :| Means(decode, slots, keys, 0, values) && DocumentAt(text, lead, slots, keys, trail);
    SkipStops(text, 0, lead);
    SlotsRead(decode, text, |lead| + 1, slots, keys, 0, values);
    SkipStops(text, |lead| + 1 + SlotsLength(slots), trail);
  }

  lemma ScannedIsDocument(decode: Decoder, text: string, keys: seq<string>, values: seq<string>)
    requires Scan(decode, text, keys) == Accepted(values)
    ensures Document(decode, text, keys, values)
  {
    hide SlotsAt, Members, Means, Gap, HoldsAt;
    var brace := Skip(text, 0);
    var end := Members(decode, text, brace + 1, keys, 0).value.1;
    var slots := ReadWereSlots(decode, text, brace + 1, keys, 0, values, end);
    SkippedIsGap(text, 0);
    SkippedIsGap(text, end);
    SliceHolds(text, 0, brace);
    SliceHolds(text, end, |text|);
    HoldsChar(text, brace, '{');
    assert DocumentAt(text, text[0..brace], slots, keys, text[end..|text|]);
  }

  /** The scanner accepts a text exactly when it is one document whose members are the keys in order: it
      reads the whole text and takes no other order. */
  lemma ScansExactlyDocuments(decode: Decoder, text: string, keys: seq<string>, values: seq<string>)
    ensures Scan(decode, text, keys) == Accepted(values) <==> Document(decode, text, keys, values)
  {
    if Document(decode, text, keys, values) {
      DocumentScans(decode, text, keys, values);
    }
    if Scan(decode, text, keys) == Accepted(values) {
      ScannedIsDocument(decode, text, keys, values);
    }
  }

  lemma DocumentStartsWithVersion(decode: Decoder, text: string, keys: seq<string>, values: seq<string>)
    requires Document(decode, text, keys, values) && keys != []
    ensures |values| == |keys| && values[0] == VERSION
  {
    var lead, slots, trail :| Means(decode, slots, keys, 0, values) && DocumentAt(text, lead, slots, keys, trail);
    MeansLengths(decode, slots, keys, 0, values);
  }

  /** A text is accepted as a binding exactly when the binding is valid and the text is a document that
      says so: the version and the ten fields under the canonical keys, in canonical order. */
  lemma AcceptsExactlyDocuments(decode: Decoder, validRuc: string -> bool, text: string, b: Binding)
    ensures Parse(decode, validRuc, text) == Accepted(b) <==>
            Valid(validRuc, b) && Document(decode, text, KEYS, [VERSION] + FieldsOf(b))
  {
    var values := [VERSION] + FieldsOf(b);
    assert values[1..] == FieldsOf(b) && BindingOf(FieldsOf(b)) == b;
    ScansExactlyDocuments(decode, text, KEYS, values);
    var scanned := Scan(decode, text, KEYS);
    if scanned.Accepted? {
      ScansExactlyDocuments(decode, text, KEYS, scanned.value);
      DocumentStartsWithVersion(decode, text, KEYS, scanned.value);
      BindingFixesValues(scanned.value, b);
    }
  }

  lemma BindingFixesValues(values: seq<string>, b: Binding)
    requires |values| == 11 && values[0] == VERSION
    ensures BindingOf(values[1..]) == b <==> values == [VERSION] + FieldsOf(b)
  {
    var fields := values[1..];
    assert values == [values[0]] + fields;
    assert BindingOf(FieldsOf(b)) == b;
    assert FieldsOf(BindingOf(fields)) == fields;
    assert ([VERSION] + FieldsOf(b))[1..] == FieldsOf(b);
  }

  // --------------------------------------------------------------- round trip

  /** The end of an escaped body is found whatever the body holds. */
  lemma {:induction false} EscapedBodyEnds(text: string, cursor: nat, s: string)
    requires HoldsAt(text, cursor, Json.EscapeAll(s)) && HoldsAt(text, cursor + |Json.EscapeAll(s)|, [Json.QUOTE])
    ensures LiteralEnd(text, cursor) == Some(cursor + |Json.EscapeAll(s)|)
    decreases |s|
  {
    if s != "" {
      var first, rest := Json.Escape(s[0]), Json.EscapeAll(s[1..]);
      HoldsParts(text, cursor, first, rest);
      EscapeIsPassed(text, cursor, s[0]);
      EscapedBodyEnds(text, cursor + |first|, s[1..]);
    }
  }

  /** The scanner passes over one escaped character. */
  lemma EscapeIsPassed(text: string, cursor: nat, c: char)
    requires HoldsAt(text, cursor, Json.Escape(c))
    ensures LiteralEnd(text, cursor) == LiteralEnd(text, cursor + |Json.Escape(c)|)
  {
    var e := Json.Escape(c);
    Json.EscapeShape(c);
    HoldsSlice(text, cursor, e);
    var slice := text[cursor..cursor + |e|];
    assert forall i | 0 <= i < |e| :: text[cursor + i] == slice[i];
    assert text[cursor] == e[0];
    if |e| == 6 {
      assert LiteralEnd(text, cursor) == LiteralEnd(text, cursor + 2);
      for i := 2 to 6
        invariant LiteralEnd(text, cursor) == LiteralEnd(text, cursor + i)
      {
        assert text[cursor + i] == e[i];
      }
    }
  }

  lemma QuoteIsLiteral(s: string)
    ensures IsLiteral(Json.Quote(s))
  {
    var body, text := Json.EscapeAll(s), Json.Quote(s);
    assert text[0..|text|] == text;
    HoldsSlice(text, 0, text);
    HoldsParts(text, 0, [Json.QUOTE] + body, [Json.QUOTE]);
    HoldsParts(text, 0, [Json.QUOTE], body);
    EscapedBodyEnds(text, 1, s);
    assert LiteralEnd(text, 1) == Some(|text| - 1);
  }

  /** A slot that prints this key and this value, with any white space around them. */
  predicate Prints(s: Slot, key: string, value: string) {
    Gap(s.beforeKey) && Gap(s.afterKey) && Gap(s.beforeValue) && Gap(s.afterValue) &&
    s.key == Json.Quote(key) && s.value == Json.Quote(value)
  }

  lemma {:induction false} PrintedMeans(decode: Decoder, slots: seq<Slot>, keys: seq<string>, k: nat, values: seq<string>)
    requires |slots| == |values| && |slots| + k == |keys|
    requires forall i | 0 <= i < |slots| :: Prints(slots[i], keys[k + i], values[i])
    requires forall s | s in keys || s in values :: decode(Json.Quote(s)) == Some(s)
    requires k == 0 && values != [] ==> values[0] == VERSION
    ensures Means(decode, slots, keys, k, values)
    decreases |slots|
  {
    hide IsLiteral, Gap, Json.Quote;
    if slots != [] {
      assert Prints(slots[0], keys[k + 0], values[0]);
      assert keys[k] in keys && values[0] in values;
      QuoteIsLiteral(keys[k]);
      QuoteIsLiteral(values[0]);
      assert forall i | 0 <= i < |slots| - 1 :: slots[1..][i] == slots[i + 1] && keys[k + 1 + i] == keys[k + (i + 1)] && values[1..][i] == values[i + 1];
      PrintedMeans(decode, slots[1..], keys, k + 1, values[1..]);
    }
  }

  /** A valid binding printed under the canonical keys, in order, with any white space between the tokens,
      parses back to the same binding, whenever the literal decoder reads back what JSON printing quotes. */
  lemma PrintedBindingsParseBack(decode: Decoder, validRuc: string -> bool, b: Binding, lead: string, slots: seq<Slot>, trail: string)
    requires Valid(validRuc, b) && Gap(lead) && Gap(trail) && |slots| == |KEYS|
    requires forall i | 0 <= i < |slots| :: Prints(slots[i], KEYS[i], ([VERSION] + FieldsOf(b))[i])
    requires forall s | s in KEYS || s in [VERSION] + FieldsOf(b) :: decode(Json.Quote(s)) == Some(s)
    ensures Parse(decode, validRuc, lead + "{" + SlotsText(slots, KEYS, 0) + trail) == Accepted(b)
  {
    var values := [VERSION] + FieldsOf(b);
    AcceptsExactlyDocuments(decode, validRuc, lead + "{" + SlotsText(slots, KEYS, 0) + trail, b);
    PrintedIsDocument(decode, KEYS, values, lead, slots, trail);
  }

  lemma PrintedIsDocument(decode: Decoder, keys: seq<string>, values: seq<string>, lead: string, slots: seq<Slot>, trail: string)
    requires Gap(lead) && Gap(trail) && |slots| == |keys| == |values| && values != [] && values[0] == VERSION
    requires forall i | 0 <= i < |slots| :: Prints(slots[i], keys[i], values[i])
    requires forall s | s in keys || s in values :: decode(Json.Quote(s)) == Some(s)
    ensures Document(decode, lead + "{" + SlotsText(slots, keys, 0) + trail, keys, values)
  {
    hide Means, DocumentAt, Prints;
    PrintedMeans(decode, slots, keys, 0, values);
    PrintedStands(lead, slots, keys, trail);
  }

  /** The concatenated tokens stand one after the other. */
  lemma PrintedStands(lead: string, slots: seq<Slot>, keys: seq<string>, trail: string)
    requires Gap(lead) && Gap(trail) && |slots| == |keys|
    ensures DocumentAt(lead + "{" + SlotsText(slots, keys, 0) + trail, lead, slots, keys, trail)
  {
    hide Gap, HoldsAt, SlotsText, SlotsAt, SlotsLength;
    var members := SlotsText(slots, keys, 0);
    FourParts(lead, "{", members, trail);
    SlotsParts(lead + "{" + members + trail, |lead| + 1, slots, keys, 0);
  }

  lemma FourParts(a: string, b: string, c: string, d: string)
    ensures
      var text := a + b + c + d;
      && HoldsAt(text, 0, a) && HoldsAt(text, |a|, b) && HoldsAt(text, |a| + |b|, c)
      && HoldsAt(text, |a| + |b| + |c|, d)
  {
    hide HoldsAt;
    var text := a + b + c + d;
    assert text[0..|text|] == text;
    HoldsSlice(text, 0, text);
    HoldsParts(text, 0, a + b + c, d);
    HoldsParts(text, 0, a + b, c);
    HoldsParts(text, 0, a, b);
  }
}
