/** Token estimation and whitespace normalisation. */
module Tokens {
  /** White space in the sense of Python's strip and split. */
  predicate IsSpace(c: char) {
    '\t' <= c <= '\r' || '\U{1C}' <= c <= ' ' || c == '\U{85}' || c == '\U{A0}' || c == '\U{1680}' ||
    '\U{2000}' <= c <= '\U{200A}' || c == '\U{2028}' || c == '\U{2029}' || c == '\U{202F}' || c == '\U{205F}' ||
    c == '\U{3000}'
  }

  function StripStart(s: string): string {
    if s != "" && IsSpace(s[0]) then StripStart(s[1..]) else s
  }

  function StripEnd(s: string): string {
    if s != "" && IsSpace(s[|s| - 1]) then StripEnd(s[..|s| - 1]) else s
  }

  function Strip(s: string): string {
    StripEnd(StripStart(s))
  }

  const CHARS_PER_TOKEN := 4

  /** About four characters a token; nothing for blank text. */
  function Count(text: string): nat {
    var stripped := Strip(text);
    if stripped == "" then 0
    else Max(1, (|stripped| + CHARS_PER_TOKEN - 1) / CHARS_PER_TOKEN)
  }

  function Max(a: nat, b: nat): nat {
    if a < b then b else a
  }

  /** The count is the least number of tokens of four characters that hold the stripped text. */
  lemma CountIsLeast(text: string, n: nat)
    ensures Count(text) <= n <==> |Strip(text)| <= CHARS_PER_TOKEN * n
  {
  }

  // ----- normalisation -----

  function FirstWord(s: string): (w: string)
    ensures |w| <= |s|
  {
    if s == "" || IsSpace(s[0]) then "" else [s[0]] + FirstWord(s[1..])
  }

  /** Python's split(): the maximal runs without white space. */
  function Words(s: string): seq<string>
    decreases |s|
  {
    if s == "" then []
    else if IsSpace(s[0]) then Words(s[1..])
    else var w := FirstWord(s); [w] + Words(s[|w|..])
  }

  function JoinWords(words: seq<string>): string {
    if words == [] then ""
    else if |words| == 1 then words[0]
    else words[0] + " " + JoinWords(words[1..])
  }

  function NormalizeWhitespace(s: string): string {
    JoinWords(Words(s))
  }

  // ----- normalisation never adds tokens -----

  predicate Blank(s: string) {
    forall i :: 0 <= i < |s| ==> IsSpace(s[i])
  }

  predicate Bare(s: string) {
    s != "" && forall i :: 0 <= i < |s| ==> !IsSpace(s[i])
  }

  lemma {:induction false} FirstWordBare(s: string)
    requires s != "" && !IsSpace(s[0])
    ensures Bare(FirstWord(s)) && s == FirstWord(s) + s[|FirstWord(s)|..]
    ensures var rest := s[|FirstWord(s)|..]; rest == "" || IsSpace(rest[0])
  {
    if |s| > 1 && !IsSpace(s[1]) {
      FirstWordBare(s[1..]);
      assert s[1..][|FirstWord(s[1..])|..] == s[|FirstWord(s)|..];
    }
  }

  lemma {:induction false} WordsBare(s: string)
    ensures forall w <- Words(s) :: Bare(w)
    ensures Words(s) == [] <==> Blank(s)
    decreases |s|
  {
    if s != "" {
      if IsSpace(s[0]) {
        WordsBare(s[1..]);
        assert Blank(s) <==> Blank(s[1..]);
      } else {
        FirstWordBare(s);
        WordsBare(s[|FirstWord(s)|..]);
      }
    }
  }

  lemma {:induction false} StripEndBlank(s: string)
    ensures Blank(s) <==> StripEnd(s) == ""
    ensures StripEnd(s) <= s
  {
    if s != "" && IsSpace(s[|s| - 1]) {
      var front := s[..|s| - 1];
      StripEndBlank(front);
      assert Blank(s) <==> Blank(front);
    }
  }

  /** Trailing white space is looked for from the end only. */
  lemma {:induction false} StripEndAppend(a: string, b: string)
    requires a != "" && !IsSpace(a[|a| - 1])
    ensures StripEnd(a + b) == a + StripEnd(b)
    decreases |b|
  {
    if b == "" {
      assert a + b == a;
    } else if IsSpace(b[|b| - 1]) {
      var front := b[..|b| - 1];
      assert (a + b)[..|a + b| - 1] == a + front;
      StripEndAppend(a, front);
    }
  }

  lemma {:induction false} StripAfterStart(s: string)
    ensures |Strip(s)| <= |StripEnd(s)|
    ensures s != "" && IsSpace(s[0]) && !Blank(s) ==> |Strip(s)| < |StripEnd(s)|
    decreases |s|
  {
    if s != "" && IsSpace(s[0]) {
      StripAfterStart(s[1..]);
      StripEndTail(s);
    }
  }

  lemma {:induction false} StripEndTail(s: string)
    requires s != "" && IsSpace(s[0])
    ensures if Blank(s) then StripEnd(s) == StripEnd(s[1..]) == "" else |StripEnd(s)| == |StripEnd(s[1..])| + 1
    decreases |s|
  {
    StripEndBlank(s);
    StripEndBlank(s[1..]);
    if !Blank(s) && IsSpace(s[|s| - 1]) {
      var front := s[..|s| - 1];
      assert front[1..] == s[1..][..|s[1..]| - 1];
      assert Blank(front) <==> Blank(s);
      StripEndTail(front);
    }
  }

  /** Normalised text is no longer than stripped text. */
  lemma {:induction false} NormalizedShort(s: string)
    ensures |NormalizeWhitespace(s)| <= |Strip(s)|
    decreases |s|
  {
    if s != "" {
      if IsSpace(s[0]) {
        NormalizedShort(s[1..]);
      } else {
        var w := FirstWord(s);
        var rest := s[|w|..];
        FirstWordBare(s);
        NormalizedShort(rest);
        StripEndAppend(w, rest);
        WordsBare(rest);
        StripAfterStart(rest);
        assert Strip(s) == w + StripEnd(rest);
      }
    }
  }

  /** Normalised text has nothing left to strip. */
  lemma {:induction false} JoinedIsStripped(words: seq<string>)
    requires forall w <- words :: Bare(w)
    ensures Strip(JoinWords(words)) == JoinWords(words)
    ensures words != [] ==> JoinWords(words) != "" && !IsSpace(JoinWords(words)[0])
    ensures words != [] ==> !IsSpace(JoinWords(words)[|JoinWords(words)| - 1])
  {
    if words != [] {
      var w := words[0];
      assert w in words;
      if |words| > 1 {
        JoinedIsStripped(words[1..]);
      }
      var text := JoinWords(words);
      assert text[0] == w[0];
      assert StripStart(text) == text && StripEnd(text) == text;
    }
  }

  /** Normalising white space never raises a token count. */
  lemma NormalizationIsCheap(s: string)
    ensures Count(NormalizeWhitespace(s)) <= Count(s)
  {
    NormalizedShort(s);
    WordsBare(s);
    JoinedIsStripped(Words(s));
  }

  lemma {:induction false} FirstWordOf(w: string, more: string)
    requires Bare(w) && (more == "" || IsSpace(more[0]))
    ensures FirstWord(w + more) == w
    decreases |w|
  {
    assert (w + more)[1..] == w[1..] + more;
    if |w| > 1 {
      FirstWordOf(w[1..], more);
    } else {
      assert w == [w[0]];
    }
  }

  lemma {:induction false} WordsSurvive(words: seq<string>)
    requires forall w <- words :: Bare(w)
    ensures Words(JoinWords(words)) == words
  {
    if words != [] {
      var w := words[0];
      assert w in words;
      var more := if |words| == 1 then "" else " " + JoinWords(words[1..]);
      assert JoinWords(words) == w + more;
      FirstWordOf(w, more);
      assert (w + more)[|w|..] == more;
      WordsSurvive(words[1..]);
      if |words| > 1 {
        assert more[1..] == JoinWords(words[1..]);
      }
      assert Words(more) == words[1..];
    }
  }

  /** Normalising keeps the words, so doing it twice is the same as doing it once. */
  lemma NormalizeTwice(s: string)
    ensures Words(NormalizeWhitespace(s)) == Words(s)
    ensures NormalizeWhitespace(NormalizeWhitespace(s)) == NormalizeWhitespace(s)
  {
    WordsBare(s);
    WordsSurvive(Words(s));
  }

  // ----- what stripping, splitting and normalising give -----

  /** Stripped text is the text without the white space around it. */
  lemma {:induction false} StripStartIs(s: string) returns (before: string)
    ensures Blank(before) && s == before + StripStart(s)
    ensures StripStart(s) == "" || !IsSpace(StripStart(s)[0])
  {
    if s != "" && IsSpace(s[0]) {
      var rest := StripStartIs(s[1..]);
      before := [s[0]] + rest;
    } else {
      before := "";
    }
  }

  lemma {:induction false} StripEndIs(s: string) returns (after: string)
    ensures Blank(after) && s == StripEnd(s) + after
    ensures StripEnd(s) == "" || !IsSpace(StripEnd(s)[|StripEnd(s)| - 1])
  {
    if s != "" && IsSpace(s[|s| - 1]) {
      var rest := StripEndIs(s[..|s| - 1]);
      after := rest + [s[|s| - 1]];
    } else {
      after := "";
    }
  }

  lemma StripIs(s: string) returns (before: string, after: string)
    ensures Blank(before) && Blank(after) && s == before + Strip(s) + after
    ensures Strip(s) == "" || (!IsSpace(Strip(s)[0]) && !IsSpace(Strip(s)[|Strip(s)| - 1]))
  {
    before := StripStartIs(s);
    after := StripEndIs(StripStart(s));
    assert Strip(s) != "" ==> Strip(s)[0] == StripStart(s)[0];
  }

  /** The text made of words with the given gaps before each of them and after the last one. */
  function Weave(gaps: seq<string>, words: seq<string>): string
    requires |gaps| == |words| + 1
  {
    if words == [] then gaps[0] else gaps[0] + words[0] + Weave(gaps[1..], words[1..])
  }

  /** White space, and some of it between any two words. */
  predicate AreGaps(gaps: seq<string>, words: seq<string>) {
    |gaps| == |words| + 1 && forall k :: 0 <= k < |gaps| ==> Blank(gaps[k]) && (0 < k < |words| ==> gaps[k] != "")
  }

  /** The words of a text are its parts between gaps of white space. */
  lemma {:induction false} WordsBetweenGaps(s: string) returns (gaps: seq<string>)
    ensures AreGaps(gaps, Words(s)) && s == Weave(gaps, Words(s))
    ensures forall w <- Words(s) :: Bare(w)
    decreases |s|
  {
    WordsBare(s);
    if s == "" {
      gaps := [""];
    } else if IsSpace(s[0]) {
      var rest := WordsBetweenGaps(s[1..]);
      gaps := WiderGap(s[0], rest, Words(s[1..]));
    } else {
      FirstWordBare(s);
      var w := FirstWord(s);
      var rest := WordsBetweenGaps(s[|w|..]);
      gaps := [""] + rest;
      WordFirst(w, rest, Words(s[|w|..]));
    }
  }

  lemma WordFirst(w: string, rest: seq<string>, words: seq<string>)
    requires Bare(w) && AreGaps(rest, words) && forall x <- words :: Bare(x)
    requires Weave(rest, words) == "" || IsSpace(Weave(rest, words)[0])
    ensures AreGaps([""] + rest, [w] + words) && Weave([""] + rest, [w] + words) == w + Weave(rest, words)
  {
    var gaps := [""] + rest;
    assert gaps[1..] == rest && ([w] + words)[1..] == words;
    if words != [] && rest[0] == "" {
      assert words[0] in words;
      StartsWithWord(rest, words);
      assert false;
    }
    assert forall k :: 0 < k < |gaps| ==> gaps[k] == rest[k - 1];
  }

  lemma WiderGap(c: char, rest: seq<string>, words: seq<string>) returns (gaps: seq<string>)
    requires AreGaps(rest, words) && IsSpace(c)
    ensures AreGaps(gaps, words) && Weave(gaps, words) == [c] + Weave(rest, words)
  {
    gaps := [[c] + rest[0]] + rest[1..];
    assert gaps[1..] == rest[1..];
    if words != [] {
      assert [c] + rest[0] + words[0] + Weave(rest[1..], words[1..]) ==
             [c] + (rest[0] + words[0] + Weave(rest[1..], words[1..]));
    }
  }

  lemma StartsWithWord(gaps: seq<string>, words: seq<string>)
    requires |gaps| == |words| + 1 && words != [] && gaps[0] == "" && Bare(words[0])
    ensures Weave(gaps, words) != "" && !IsSpace(Weave(gaps, words)[0])
  {
    assert Weave(gaps, words)[0] == words[0][0];
  }

  /** White space inside a text: single blanks only, none at either end. */
  predicate SingleBlanks(t: string) {
    forall i :: 0 <= i < |t| && IsSpace(t[i]) ==>
      t[i] == ' ' && 0 < i < |t| - 1 && !IsSpace(t[i - 1]) && !IsSpace(t[i + 1])
  }

  lemma {:induction false} JoinedHasSingleBlanks(words: seq<string>)
    requires forall w <- words :: Bare(w)
    ensures SingleBlanks(JoinWords(words))
  {
    if |words| == 1 {
      assert words[0] in words;
    } else if words != [] {
      var w, rest := words[0], JoinWords(words[1..]);
      assert w in words;
      JoinedHasSingleBlanks(words[1..]);
      JoinedIsStripped(words[1..]);
      OneBlankBetween(w, rest);
    }
  }

  lemma OneBlankBetween(w: string, rest: string)
    requires Bare(w) && SingleBlanks(rest) && rest != "" && !IsSpace(rest[0])
    ensures SingleBlanks(w + " " + rest)
  {
    var t := w + " " + rest;
    assert t[|w|] == ' ' && t[|w| - 1] == w[|w| - 1];
    assert forall i :: 0 <= i < |w| ==> t[i] == w[i];
    assert forall i :: |w| < i < |t| ==> t[i] == rest[i - |w| - 1];
  }

  /** Normalised text has the same words with single blanks in between, and nothing else. */
  lemma NormalizedIs(s: string)
    ensures Words(NormalizeWhitespace(s)) == Words(s) && SingleBlanks(NormalizeWhitespace(s))
  {
    NormalizeTwice(s);
    WordsBare(s);
    JoinedHasSingleBlanks(Words(s));
  }
}
