/** The fold of topic keys: which keys it calls the same. */
module TopicFold {

  /** Letters and digits: ASCII, Latin-1 supplement and extended, Greek. */
  predicate IsFoldChar(c: char) {
    ('a' <= c <= 'z') || ('A' <= c <= 'Z') || ('0' <= c <= '9') ||
    ('\U{00C0}' <= c <= '\U{024F}') || ('\U{0370}' <= c <= '\U{03FF}')
  }

  predicate IsWord(w: string) {
    w != "" && forall i | 0 <= i < |w| :: IsFoldChar(w[i])
  }

  predicate AllWords(ws: seq<string>) {
    forall i | 0 <= i < |ws| :: IsWord(ws[i])
  }

  /** The maximal runs of letters and digits, in order. */
  function Words(s: string): (ws: seq<string>)
    ensures AllWords(ws)
    ensures s != "" && IsFoldChar(s[|s| - 1]) ==> ws != []
  {
    if s == "" then []
    else
      var before, c := Words(s[..|s| - 1]), s[|s| - 1];
      if !IsFoldChar(c) then before
      else if |s| > 1 && IsFoldChar(s[|s| - 2]) then before[..|before| - 1] + [before[|before| - 1] + [c]]
      else before + [[c]]
  }

  /** The words with one space between them. */
  function Joined(ws: seq<string>): string {
    if ws == [] then ""
    else if |ws| == 1 then ws[0]
    else Joined(ws[..|ws| - 1]) + " " + ws[|ws| - 1]
  }

  function Fold(lower: string -> string, raw: string): string {
    Joined(Words(lower(raw)))
  }

  lemma JoinedIsEmptyIff(ws: seq<string>)
    requires AllWords(ws)
    ensures Joined(ws) == "" <==> ws == []
  {
    if |ws| == 1 {
      assert IsWord(ws[0]);
    }
  }

  lemma JoinExtended(ws: seq<string>, c: char)
    requires ws != []
    ensures Joined(ws[..|ws| - 1] + [ws[|ws| - 1] + [c]]) == Joined(ws) + [c]
  {
    var longer := ws[..|ws| - 1] + [ws[|ws| - 1] + [c]];
    assert longer[..|ws| - 1] == ws[..|ws| - 1];
    if |ws| > 1 {
      var front, last := Joined(ws[..|ws| - 1]), ws[|ws| - 1];
      assert front + " " + (last + [c]) == front + " " + last + [c];
    }
  }

  lemma JoinAppended(ws: seq<string>, w: string)
    ensures Joined(ws + [w]) == if ws == [] then w else Joined(ws) + " " + w
  {
    assert (ws + [w])[..|ws|] == ws;
  }

  predicate EndsInWord(s: string) {
    s != "" && IsFoldChar(s[|s| - 1])
  }

  /** What one more character does to the joined words. */
  lemma JoinedGrows(front: string, c: char)
    ensures
      var joined := Joined(Words(front));
      Joined(Words(front + [c])) ==
      if !IsFoldChar(c) then joined
      else if EndsInWord(front) || joined == "" then joined + [c]
      else joined + " " + [c]
  {
    assert (front + [c])[..|front|] == front;
    JoinedIsEmptyIff(Words(front));
    if IsFoldChar(c) {
      if EndsInWord(front) {
        JoinExtended(Words(front), c);
      } else {
        JoinAppended(Words(front), [c]);
      }
    }
  }

  /** `foldTopicKey`: one pass with a pending separator. */
  method FoldTopicKey(lower: string -> string, raw: string) returns (out: string)
    ensures out == Fold(lower, raw)
  {
    hide Words, Joined;
    var text := lower(raw);
    out := "";
    var pendingSpace := false;
    FoldOfNothing();
    for i := 0 to |text|
      invariant out == Joined(Words(text[..i]))
      invariant pendingSpace <==> i > 0 && !IsFoldChar(text[i - 1])
      invariant i == 0 ==> out == ""
    {
      var c := text[i];
      JoinedGrows(text[..i], c);
      assert text[..i + 1] == text[..i] + [c];
      if IsFoldChar(c) {
        if pendingSpace && |out| > 0 {
          out := out + " ";
        }
        pendingSpace := false;
        out := out + [c];
      } else {
        pendingSpace := true;
      }
    }
    assert text[..|text|] == text;
  }

  lemma FoldOfNothing()
    ensures Joined(Words("")) == ""
  {
  }

  // ------------------------------------------------------------------ results

  /** A word that nothing runs into is the next word. */
  lemma {:induction false} NextWord(t: string, w: string)
    requires IsWord(w) && (t == "" || !IsFoldChar(t[|t| - 1]))
    ensures Words(t + w) == Words(t) + [w]
  {
    var front, c := w[..|w| - 1], w[|w| - 1];
    assert (t + w)[..|t + w| - 1] == t + front;
    if front == "" {
      assert t + front == t && w == [c];
    } else {
      NextWord(t, front);
      assert (t + w)[|t + w| - 2] == w[|w| - 2];
      assert front + [c] == w;
      assert (Words(t) + [front])[..|Words(t)|] == Words(t);
    }
  }

  lemma SpaceEndsNoWord(s: string)
    ensures Words(s + " ") == Words(s) && !IsFoldChar((s + " ")[|s|])
    ensures Words("") == [] && Joined([]) == ""
  {
    assert (s + " ")[..|s|] == s;
  }

  lemma {:induction false} JoinedReadsBack(ws: seq<string>)
    requires AllWords(ws)
    ensures Words(Joined(ws)) == ws
  {
    hide Words, Joined, IsWord;
    SpaceEndsNoWord(Joined(ws[..if ws == [] then 0 else |ws| - 1]));
    if ws != [] {
      var front, last := ws[..|ws| - 1], ws[|ws| - 1];
      assert ws == front + [last];
      JoinedReadsBack(front);
      JoinAppended(front, last);
      if front == [] {
        NextWord("", last);
        assert "" + last == last;
      } else {
        NextWord(Joined(front) + " ", last);
      }
    }
  }

  /** Two keys fold to the same text exactly when they hold the same words in the same order. */
  lemma FoldsAgreeIff(lower: string -> string, a: string, b: string)
    ensures Fold(lower, a) == Fold(lower, b) <==> Words(lower(a)) == Words(lower(b))
  {
    JoinedReadsBack(Words(lower(a)));
    JoinedReadsBack(Words(lower(b)));
  }

  /** Letters and digits, and single spaces between them. */
  predicate Clean(t: string) {
    forall i | 0 <= i < |t| :: IsFoldChar(t[i]) || (t[i] == ' ' && 0 < i < |t| - 1 && IsFoldChar(t[i - 1]) && IsFoldChar(t[i + 1]))
  }

  /** Clean, except for one space at the end. */
  predicate CleanStart(t: string) {
    forall i | 0 <= i < |t| :: IsFoldChar(t[i]) || (t[i] == ' ' && 0 < i && IsFoldChar(t[i - 1]))
  }

  lemma {:induction false} CleanStartIsJoined(t: string)
    requires CleanStart(t)
    ensures t == Joined(Words(t)) + if t == "" || EndsInWord(t) then "" else " "
  {
    hide Words, Joined, IsFoldChar;
    FoldOfNothing();
    if t != "" {
      var front, c := t[..|t| - 1], t[|t| - 1];
      assert forall i | 0 <= i < |front| :: front[i] == t[i];
      CleanStartIsJoined(front);
      assert t == front + [c];
      JoinedGrows(front, c);
    }
  }

  lemma {:induction false} JoinedIsClean(ws: seq<string>)
    requires AllWords(ws)
    ensures Clean(Joined(ws)) && (ws != [] ==> Joined(ws) != "" && IsFoldChar(Joined(ws)[|Joined(ws)| - 1]))
  {
    if |ws| == 1 {
      assert IsWord(ws[0]);
    } else if ws != [] {
      var front, last := ws[..|ws| - 1], ws[|ws| - 1];
      JoinedIsClean(front);
      assert IsWord(last);
      CleanJoin(Joined(front), last);
    }
  }

  lemma CleanJoin(t: string, w: string)
    requires Clean(t) && t != "" && IsFoldChar(t[|t| - 1]) && IsWord(w)
    ensures Clean(t + " " + w)
  {
    var j := t + " " + w;
    forall i | 0 <= i < |j|
      ensures IsFoldChar(j[i]) || (j[i] == ' ' && 0 < i < |j| - 1 && IsFoldChar(j[i - 1]) && IsFoldChar(j[i + 1]))
    {
      if i < |t| {
        assert j[i] == t[i] && (i > 0 ==> j[i - 1] == t[i - 1]) && (i + 1 < |t| ==> j[i + 1] == t[i + 1]);
      } else if i == |t| {
        assert j[i - 1] == t[|t| - 1] && j[i + 1] == w[0];
      } else {
        assert j[i] == w[i - |t| - 1];
      }
    }
  }

  /** The clean texts are exactly the ones that folding, without lower-casing, leaves alone; every fold is one. */
  lemma CleanIffFixed(t: string)
    ensures Clean(t) <==> Joined(Words(t)) == t
  {
    if Clean(t) {
      CleanStartIsJoined(t);
    }
    JoinedIsClean(Words(t));
  }

  /** Lower-casing whose outputs are made of characters that it leaves alone, wherever they stand. */
  ghost predicate Settles(lower: string -> string, settled: char -> bool) {
    && settled(' ')
    && (forall s, i | 0 <= i < |lower(s)| :: settled(lower(s)[i]))
    && (forall s | (forall i | 0 <= i < |s| :: settled(s[i])) :: lower(s) == s)
  }

  lemma {:induction false} JoinedWordsAreFrom(s: string, settled: char -> bool)
    requires settled(' ') && forall i | 0 <= i < |s| :: settled(s[i])
    ensures forall i | 0 <= i < |Joined(Words(s))| :: settled(Joined(Words(s))[i])
  {
    hide Words, Joined, IsFoldChar;
    FoldOfNothing();
    if s != "" {
      var front, c := s[..|s| - 1], s[|s| - 1];
      JoinedWordsAreFrom(front, settled);
      assert s == front + [c];
      JoinedGrows(front, c);
    }
  }

  /** Folding a folded key changes nothing. */
  lemma FoldIsIdempotent(lower: string -> string, settled: char -> bool, raw: string)
    requires Settles(lower, settled)
    ensures Fold(lower, Fold(lower, raw)) == Fold(lower, raw)
  {
    JoinedWordsAreFrom(lower(raw), settled);
    assert lower(Fold(lower, raw)) == Fold(lower, raw);
    JoinedReadsBack(Words(lower(raw)));
  }
}
