/** Byte framings: UTF-8, decimal lengths, and the two act-evidence encodings built on them. */
module Framing {
  type Byte = b: int | 0 <= b < 256

  type Bytes = seq<Byte>

  const COLON: Byte := 58
  const EQUALS: Byte := 61
  const END: Byte := 0

  // -------------------------------------------------------------------- UTF-8

  /** One character in UTF-8 (RFC 3629, section 3). */
  function EncodeChar(c: char): Bytes {
    var n := c as int;
    if n < 0x80 then [n]
    else if n < 0x800 then [0xC0 + n / 0x40, 0x80 + n % 0x40]
    else if n < 0x10000 then [0xE0 + n / 0x1000, 0x80 + n / 0x40 % 0x40, 0x80 + n % 0x40]
    else [0xF0 + n / 0x40000, 0x80 + n / 0x1000 % 0x40, 0x80 + n / 0x40 % 0x40, 0x80 + n % 0x40]
  }

  function Encode(s: string): Bytes {
    if s == "" then [] else EncodeChar(s[0]) + Encode(s[1..])
  }

  /** The first byte tells how long the character is. */
  lemma FirstByte(c: char)
    ensures
      var e := EncodeChar(c);
      |e| == if e[0] < 0x80 then 1 else if e[0] < 0xE0 then 2 else if e[0] < 0xF0 then 3 else 4
  {
  }

  lemma SplitDigits(m: int, n: int, k: int)
    requires k > 0 && m / k == n / k && m % k == n % k
    ensures m == n
  {
    assert m == k * (m / k) + m % k && n == k * (n / k) + n % k;
  }

  lemma DivDiv(n: int)
    requires n >= 0
    ensures n / 0x1000 == n / 0x40 / 0x40 && n / 0x40000 == n / 0x1000 / 0x40
  {
  }

  lemma CharsDiffer(c: char, d: char)
    requires EncodeChar(c) == EncodeChar(d)
    ensures c == d
  {
    var m, n, e, g := c as int, d as int, EncodeChar(c), EncodeChar(d);
    FirstByte(c);
    FirstByte(d);
    DivDiv(m);
    DivDiv(n);
    if |e| == 1 {
      assert e[0] == g[0];
    } else if |e| == 2 {
      assert e[0] == g[0] && e[1] == g[1];
      SplitDigits(m, n, 0x40);
    } else if |e| == 3 {
      assert e[0] == g[0] && e[1] == g[1] && e[2] == g[2];
      SplitDigits(m / 0x40, n / 0x40, 0x40);
      SplitDigits(m, n, 0x40);
    } else {
      assert e[0] == g[0] && e[1] == g[1] && e[2] == g[2] && e[3] == g[3];
      SplitDigits(m / 0x1000, n / 0x1000, 0x40);
      SplitDigits(m / 0x40, n / 0x40, 0x40);
      SplitDigits(m, n, 0x40);
    }
  }

  lemma {:induction false} EncodeInjective(a: string, b: string)
    requires Encode(a) == Encode(b)
    ensures a == b
  {
    if a != "" {
      FirstByte(a[0]);
    }
    if b != "" {
      FirstByte(b[0]);
    }
    if a != "" && b != "" {
      var n := |EncodeChar(a[0])|;
      assert Encode(a)[0] == EncodeChar(a[0])[0] && Encode(b)[0] == EncodeChar(b[0])[0];
      assert EncodeChar(a[0]) == Encode(a)[..n] && EncodeChar(b[0]) == Encode(b)[..n];
      CharsDiffer(a[0], b[0]);
      assert Encode(a[1..]) == Encode(a)[n..] && Encode(b[1..]) == Encode(b)[n..];
      EncodeInjective(a[1..], b[1..]);
      assert a == [a[0]] + a[1..] && b == [b[0]] + b[1..];
    }
  }

  // ----------------------------------------------------------------- decimals

  function Digit(n: nat): Byte
    requires n < 10
  {
    48 + n
  }

  /** `strconv.Itoa` of a length. */
  function Decimal(n: nat): Bytes {
    if n < 10 then [Digit(n)] else Decimal(n / 10) + [Digit(n % 10)]
  }

  /** `strconv.Itoa`. */
  function Itoa(n: int): Bytes {
    if n < 0 then [45] + Decimal(-n) else Decimal(n)
  }

  predicate Digits(b: Bytes) {
    forall i | 0 <= i < |b| :: 48 <= b[i] <= 57
  }

  lemma {:induction false} DecimalIsDigits(n: nat)
    ensures Digits(Decimal(n)) && |Decimal(n)| > 0
  {
    if n >= 10 {
      DecimalIsDigits(n / 10);
    }
  }

  lemma {:induction false} DecimalInjective(m: nat, n: nat)
    requires Decimal(m) == Decimal(n)
    ensures m == n
  {
    DecimalIsDigits(m / 10);
    DecimalIsDigits(n / 10);
    var l := Decimal(m);
    if m >= 10 && n >= 10 {
      assert l[|l| - 1] == Digit(m % 10) == Digit(n % 10);
      assert Decimal(m / 10) == l[..|l| - 1] && Decimal(n / 10) == l[..|l| - 1];
      DecimalInjective(m / 10, n / 10);
      SplitDigits(m, n, 10);
    }
  }

  lemma ItoaInjective(m: int, n: int)
    requires Itoa(m) == Itoa(n)
    ensures m == n
  {
    DecimalIsDigits(if m < 0 then -m else m);
    DecimalIsDigits(if n < 0 then -n else n);
    assert Itoa(m)[0] == Itoa(n)[0];
    if m < 0 {
      assert Decimal(-m) == Itoa(m)[1..] && Decimal(-n) == Itoa(n)[1..];
      DecimalInjective(-m, -n);
    } else {
      DecimalInjective(m, n);
    }
  }

  lemma ItoaHasNoMark(n: int, mark: Byte)
    requires mark == COLON || mark == END || mark == EQUALS
    ensures mark !in Itoa(n)
  {
    DecimalIsDigits(if n < 0 then -n else n);
  }

  /** A mark that the front parts do not hold splits two equal texts in the same place. */
  lemma SplitAtMark(a: Bytes, x: Bytes, b: Bytes, y: Bytes, mark: Byte)
    requires mark !in a && mark !in b && a + [mark] + x == b + [mark] + y
    ensures a == b && x == y
  {
    var l := a + [mark] + x;
    assert l[|a|] == mark && (b + [mark] + y)[|b|] == mark;
    assert forall i | 0 <= i < |a| :: l[i] == a[i] && a[i] in a;
    assert forall i | 0 <= i < |b| :: (b + [mark] + y)[i] == b[i] && b[i] in b;
    assert |a| == |b|;
    assert a == l[..|a|] && b == l[..|a|];
    assert x == l[|a| + 1..] && y == l[|a| + 1..];
  }

  // ------------------------------------------------------------ length frames

  /** `<length>:<part>\\0`. */
  function Frame(part: Bytes): Bytes {
    Decimal(|part|) + [COLON] + (part + [END])
  }

  /** A frame ends where it ends, whatever the part holds and whatever follows. */
  lemma FrameIsReadable(a: Bytes, x: Bytes, b: Bytes, y: Bytes)
    requires Frame(a) + x == Frame(b) + y
    ensures a == b && x == y
  {
    DecimalIsDigits(|a|);
    DecimalIsDigits(|b|);
    assert Frame(a) + x == Decimal(|a|) + [COLON] + (a + [END] + x);
    assert Frame(b) + y == Decimal(|b|) + [COLON] + (b + [END] + y);
    SplitAtMark(Decimal(|a|), a + [END] + x, Decimal(|b|), b + [END] + y, COLON);
    DecimalInjective(|a|, |b|);
    var l := a + [END] + x;
    assert a == l[..|a|] && b == l[..|a|];
    assert x == l[|a| + 1..] && y == l[|a| + 1..];
  }

  function Frames(parts: seq<Bytes>): Bytes {
    if parts == [] then [] else Frame(parts[0]) + Frames(parts[1..])
  }

  lemma {:induction false} FramesAreReadable(a: seq<Bytes>, b: seq<Bytes>)
    requires |a| == |b| && Frames(a) == Frames(b)
    ensures a == b
  {
    if a != [] {
      FrameIsReadable(a[0], Frames(a[1..]), b[0], Frames(b[1..]));
      FramesAreReadable(a[1..], b[1..]);
      assert a == [a[0]] + a[1..] && b == [b[0]] + b[1..];
    }
  }

  /** What the framing loops build: one frame after the other. */
  method AppendFrames(head: Bytes, parts: seq<Bytes>) returns (buf: Bytes)
    ensures buf == head + Frames(parts)
  {
    buf := head;
    for i := 0 to |parts|
      invariant buf + Frames(parts[i..]) == head + Frames(parts)
    {
      buf := buf + Decimal(|parts[i]|);
      buf := buf + [COLON];
      buf := buf + parts[i];
      buf := buf + [END];
      assert parts[i..][1..] == parts[i + 1..];
      assert Frames(parts[i..]) == Frame(parts[i]) + Frames(parts[i + 1..]);
    }
  }
}
