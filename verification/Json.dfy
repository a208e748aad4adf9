/** The part of JSON that the receipts are written in: objects of strings and string lists, printed
    compactly as JSON.stringify does. Printing can be read back. */
module Json {
  import opened Text

  const QUOTE := '"'
  const BACKSLASH := '\\'

  function HexDigit(n: nat): char
    requires n < 16
  {
    "0123456789abcdef"[n]
  }

  lemma HexDigitsDiffer(m: nat, n: nat)
    requires m < 16 && n < 16 && HexDigit(m) == HexDigit(n)
    ensures m == n
  {
  }

  /** One character inside a JSON string. */
  function Escape(c: char): string {
    if c == QUOTE then [BACKSLASH, QUOTE]
    else if c == BACKSLASH then [BACKSLASH, BACKSLASH]
    else if c == '\U{8}' then [BACKSLASH, 'b']
    else if c == '\U{c}' then [BACKSLASH, 'f']
    else if c == '\n' then [BACKSLASH, 'n']
    else if c == '\r' then [BACKSLASH, 'r']
    else if c == '\t' then [BACKSLASH, 't']
    else if c < ' ' then [BACKSLASH, 'u', '0', '0', HexDigit(c as int / 16), HexDigit(c as int % 16)]
    else [c]
  }

  function EscapeAll(s: string): string {
    if s == "" then "" else Escape(s[0]) + EscapeAll(s[1..])
  }

  function Quote(s: string): string {
    [QUOTE] + EscapeAll(s) + [QUOTE]
  }

  predicate Short(c: char) {
    c == QUOTE || c == BACKSLASH || c == '\U{8}' || c == '\U{c}' || c == '\n' || c == '\r' || c == '\t'
  }

  /** How a printed character can be told from its first letters. */
  lemma EscapeShape(c: char)
    ensures Escape(c)[0] == BACKSLASH <==> Short(c) || c < ' '
    ensures Escape(c)[0] == BACKSLASH ==> |Escape(c)| == if Escape(c)[1] == 'u' then 6 else 2
    ensures Escape(c)[0] != BACKSLASH ==> Escape(c) == [c] && c != QUOTE
  {
  }

  lemma EscapesDiffer(c: char, d: char)
    requires Escape(c) == Escape(d)
    ensures c == d
  {
    EscapeShape(c);
    EscapeShape(d);
    if |Escape(c)| == 6 {
      assert Escape(c)[4] == HexDigit(c as int / 16) && Escape(c)[5] == HexDigit(c as int % 16);
      assert Escape(d)[4] == HexDigit(d as int / 16) && Escape(d)[5] == HexDigit(d as int % 16);
      HexDigitsDiffer(c as int / 16, d as int / 16);
      HexDigitsDiffer(c as int % 16, d as int % 16);
    }
  }

  /** No escape is the beginning of another, and none begins with a quote. */
  lemma EscapeIsReadable(c: char, x: string, d: char, y: string)
    requires Escape(c) + x == Escape(d) + y
    ensures c == d && x == y
  {
    var l := Escape(c) + x;
    EscapeShape(c);
    EscapeShape(d);
    assert l[0] == Escape(c)[0] == Escape(d)[0];
    if l[0] == BACKSLASH {
      assert l[1] == Escape(c)[1] == Escape(d)[1];
    }
    var n := |Escape(c)|;
    assert Escape(c) == l[..n] && Escape(d) == l[..n] && x == l[n..] && y == l[n..];
    EscapesDiffer(c, d);
  }

  /** The text after an opening quote begins with a quote exactly when the string is empty. */
  lemma BodyStart(s: string, x: string)
    ensures |EscapeAll(s) + [QUOTE] + x| > 0
    ensures (EscapeAll(s) + [QUOTE] + x)[0] == QUOTE <==> s == ""
    ensures s == "" ==> (EscapeAll(s) + [QUOTE] + x)[1..] == x
    ensures s != "" ==> EscapeAll(s) + [QUOTE] + x == Escape(s[0]) + (EscapeAll(s[1..]) + [QUOTE] + x)
  {
    if s == "" {
      assert EscapeAll(s) + [QUOTE] + x == [QUOTE] + x;
    } else {
      Chain3(Escape(s[0]), EscapeAll(s[1..]), [QUOTE], x);
      EscapeShape(s[0]);
    }
  }

  lemma Chain3(a: string, b: string, c: string, d: string)
    ensures (a + b) + c + d == a + (b + c + d)
  {
  }

  lemma {:induction false} EscapeAllIsReadable(a: string, x: string, b: string, y: string)
    requires EscapeAll(a) + [QUOTE] + x == EscapeAll(b) + [QUOTE] + y
    ensures a == b && x == y
  {
    BodyStart(a, x);
    BodyStart(b, y);
    if a != "" {
      EscapeIsReadable(a[0], EscapeAll(a[1..]) + [QUOTE] + x, b[0], EscapeAll(b[1..]) + [QUOTE] + y);
      EscapeAllIsReadable(a[1..], x, b[1..], y);
      assert a == [a[0]] + a[1..] && b == [b[0]] + b[1..];
    }
  }

  /** A quoted string ends where it ends, whatever follows. */
  lemma QuoteIsReadable(a: string, x: string, b: string, y: string)
    requires Quote(a) + x == Quote(b) + y
    ensures a == b && x == y
  {
    var restA, restB := EscapeAll(a) + [QUOTE] + x, EscapeAll(b) + [QUOTE] + y;
    assert Quote(a) + x == [QUOTE] + restA;
    assert Quote(b) + y == [QUOTE] + restB;
    assert restA == ([QUOTE] + restA)[1..] && restB == ([QUOTE] + restB)[1..];
    EscapeAllIsReadable(a, x, b, y);
  }

  // ------------------------------------------------------------------- values

  datatype Value = Text(text: string) | List(items: seq<string>)

  datatype Member = Member(key: string, value: Value)

  /** The rest of a list after its first item. */
  function PrintItems(items: seq<string>): string {
    if items == [] then "]" else "," + (Quote(items[0]) + PrintItems(items[1..]))
  }

  function PrintValue(v: Value): string {
    match v
    case Text(text) => Quote(text)
    case List(items) => if items == [] then "[]" else "[" + (Quote(items[0]) + PrintItems(items[1..]))
  }

  function PrintMember(m: Member): string {
    Quote(m.key) + (":" + PrintValue(m.value))
  }

  /** The rest of an object after its first member. */
  function PrintMembers(ms: seq<Member>): string {
    if ms == [] then "}" else "," + (PrintMember(ms[0]) + PrintMembers(ms[1..]))
  }

  function PrintObject(ms: seq<Member>): string {
    if ms == [] then "{}" else "{" + (PrintMember(ms[0]) + PrintMembers(ms[1..]))
  }

  lemma Regroup(mark: string, first: string, rest: string, x: string)
    requires |mark| == 1
    ensures ((mark + (first + rest)) + x)[0] == mark[0]
    ensures ((mark + (first + rest)) + x)[1..] == first + (rest + x)
  {
    assert (mark + (first + rest)) + x == mark + (first + (rest + x));
  }

  lemma ItemsStart(items: seq<string>, x: string)
    ensures (PrintItems(items) + x)[0] == if items == [] then ']' else ','
    ensures items == [] ==> (PrintItems(items) + x)[1..] == x
    ensures items != [] ==> (PrintItems(items) + x)[1..] == Quote(items[0]) + (PrintItems(items[1..]) + x)
  {
    if items != [] {
      Regroup(",", Quote(items[0]), PrintItems(items[1..]), x);
    }
  }

  lemma {:induction false} ItemsAreReadable(a: seq<string>, x: string, b: seq<string>, y: string)
    requires PrintItems(a) + x == PrintItems(b) + y
    ensures a == b && x == y
  {
    ItemsStart(a, x);
    ItemsStart(b, y);
    if a != [] {
      QuoteIsReadable(a[0], PrintItems(a[1..]) + x, b[0], PrintItems(b[1..]) + y);
      ItemsAreReadable(a[1..], x, b[1..], y);
      assert a == [a[0]] + a[1..] && b == [b[0]] + b[1..];
    }
  }

  lemma ListStart(items: seq<string>, x: string)
    ensures (PrintValue(List(items)) + x)[0] == '['
    ensures (PrintValue(List(items)) + x)[1] == if items == [] then ']' else QUOTE
    ensures items == [] ==> (PrintValue(List(items)) + x)[2..] == x
    ensures items != [] ==> (PrintValue(List(items)) + x)[1..] == Quote(items[0]) + (PrintItems(items[1..]) + x)
  {
    if items != [] {
      Regroup("[", Quote(items[0]), PrintItems(items[1..]), x);
      var l := PrintValue(List(items)) + x;
      assert l[1..][0] == QUOTE;
    }
  }

  lemma ValueIsReadable(a: Value, x: string, b: Value, y: string)
    requires PrintValue(a) + x == PrintValue(b) + y
    ensures a == b && x == y
  {
    assert a.Text? ==> (PrintValue(a) + x)[0] == QUOTE;
    assert b.Text? ==> (PrintValue(b) + y)[0] == QUOTE;
    if a.List? {
      ListStart(a.items, x);
    }
    if b.List? {
      ListStart(b.items, y);
    }
    if a.Text? {
      QuoteIsReadable(a.text, x, b.text, y);
    } else if a.items != [] {
      QuoteIsReadable(a.items[0], PrintItems(a.items[1..]) + x, b.items[0], PrintItems(b.items[1..]) + y);
      ItemsAreReadable(a.items[1..], x, b.items[1..], y);
      assert a.items == [a.items[0]] + a.items[1..] && b.items == [b.items[0]] + b.items[1..];
    }
  }

  lemma MemberShape(m: Member, x: string)
    ensures PrintMember(m) + x == Quote(m.key) + (":" + (PrintValue(m.value) + x))
  {
  }

  lemma MemberIsReadable(a: Member, x: string, b: Member, y: string)
    requires PrintMember(a) + x == PrintMember(b) + y
    ensures a == b && x == y
  {
    MemberShape(a, x);
    MemberShape(b, y);
    var restA, restB := PrintValue(a.value) + x, PrintValue(b.value) + y;
    QuoteIsReadable(a.key, ":" + restA, b.key, ":" + restB);
    assert restA == (":" + restA)[1..] && restB == (":" + restB)[1..];
    ValueIsReadable(a.value, x, b.value, y);
  }

  lemma MembersStart(ms: seq<Member>, x: string)
    ensures (PrintMembers(ms) + x)[0] == if ms == [] then '}' else ','
    ensures ms == [] ==> (PrintMembers(ms) + x)[1..] == x
    ensures ms != [] ==> (PrintMembers(ms) + x)[1..] == PrintMember(ms[0]) + (PrintMembers(ms[1..]) + x)
  {
    if ms != [] {
      Regroup(",", PrintMember(ms[0]), PrintMembers(ms[1..]), x);
    }
  }

  lemma {:induction false} MembersAreReadable(a: seq<Member>, x: string, b: seq<Member>, y: string)
    requires PrintMembers(a) + x == PrintMembers(b) + y
    ensures a == b && x == y
  {
    MembersStart(a, x);
    MembersStart(b, y);
    if a != [] {
      MemberIsReadable(a[0], PrintMembers(a[1..]) + x, b[0], PrintMembers(b[1..]) + y);
      MembersAreReadable(a[1..], x, b[1..], y);
      assert a == [a[0]] + a[1..] && b == [b[0]] + b[1..];
    }
  }

  lemma ObjectStart(ms: seq<Member>)
    ensures |PrintObject(ms)| > 1 && PrintObject(ms)[1] == if ms == [] then '}' else QUOTE
    ensures ms != [] ==> PrintObject(ms)[1..] == PrintMember(ms[0]) + PrintMembers(ms[1..])
  {
    if ms != [] {
      assert PrintMember(ms[0])[0] == QUOTE;
    }
  }

  /** Two objects with the same text are the same object, keys and order included. */
  lemma ObjectsAreReadable(a: seq<Member>, b: seq<Member>)
    requires PrintObject(a) == PrintObject(b)
    ensures a == b
  {
    ObjectStart(a);
    ObjectStart(b);
    if a != [] {
      var restA, restB := PrintMembers(a[1..]), PrintMembers(b[1..]);
      MemberIsReadable(a[0], restA, b[0], restB);
      assert restA + "" == restA && restB + "" == restB;
      MembersAreReadable(a[1..], "", b[1..], "");
      assert a == [a[0]] + a[1..] && b == [b[0]] + b[1..];
    }
  }
}
