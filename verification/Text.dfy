/**
 Tokenising and normalising text. The Unicode tables are a parameter: nothing below depends on
 which characters are letters, only on the few facts in `Sane`.
 */
module Text {
  import opened Prelude

  datatype UnicodeTables = UnicodeTables(
    lower: char -> char, isLetter: char -> bool, isNumber: char -> bool, isSpace: char -> bool)
  {
    predicate IsWord(c: char) { isLetter(c) || isNumber(c) }

    /**
     Lower-casing settles in one step; the separators used below are no word characters; word
     characters, '.', '-', '=' and the marks of redaction paths are no blanks.
     */
    ghost predicate Sane() {
      && (forall c: char :: lower(lower(c)) == lower(c))
      && (forall c: char :: c in {' ', '.', '-', '='} ==> !IsWord(c) && lower(c) == c)
      && (forall c: char :: IsWord(c) ==> !isSpace(c))
      && !isSpace('.') && !isSpace('-') && !isSpace('=') && !isSpace('$') && !isSpace(']')
    }
  }

  function AsciiLower(c: char): char {
    if 'A' <= c <= 'Z' then 'a' + (c as int - 'A' as int) as char else c
  }

  const ASCII := UnicodeTables(AsciiLower, c => 'a' <= c <= 'z' || 'A' <= c <= 'Z', c => '0' <= c <= '9',
                               c => c in {' ', '\t', '\n', '\r'})

  type Unicode = u: UnicodeTables | u.Sane() witness ASCII

  // ---- Library strings ----

  function TrimLeft(u: Unicode, s: string): string {
    if s != "" && u.isSpace(s[0]) then TrimLeft(u, s[1..]) else s
  }

  function TrimRight(u: Unicode, s: string): string {
    if s != "" && u.isSpace(s[|s| - 1]) then TrimRight(u, s[..|s| - 1]) else s
  }

  function TrimSpace(u: Unicode, s: string): string {
    TrimRight(u, TrimLeft(u, s))
  }

  function Join(parts: seq<string>, sep: string): string {
    if parts == [] then "" else if |parts| == 1 then parts[0] else parts[0] + sep + Join(parts[1..], sep)
  }

  function ToLower(u: Unicode, s: string): (r: string)
    ensures |r| == |s| && forall i :: 0 <= i < |s| ==> r[i] == u.lower(s[i])
  {
    seq(|s|, i requires 0 <= i < |s| => u.lower(s[i]))
  }

  predicate Trimmed(u: Unicode, s: string) {
    s == "" || (!u.isSpace(s[0]) && !u.isSpace(s[|s| - 1]))
  }

  lemma {:induction false} TrimRightKeepsHead(u: Unicode, s: string)
    ensures |TrimRight(u, s)| <= |s| && TrimRight(u, s) == s[..|TrimRight(u, s)|]
    ensures TrimRight(u, s) == "" || !u.isSpace(TrimRight(u, s)[|TrimRight(u, s)| - 1])
  {
    if s != "" && u.isSpace(s[|s| - 1]) { TrimRightKeepsHead(u, s[..|s| - 1]); }
  }

  lemma {:induction false} TrimLeftHead(u: Unicode, s: string)
    ensures TrimLeft(u, s) == "" || !u.isSpace(TrimLeft(u, s)[0])
  {
    if s != "" && u.isSpace(s[0]) { TrimLeftHead(u, s[1..]); }
  }

  lemma TrimmedOnce(u: Unicode, s: string)
    ensures Trimmed(u, TrimSpace(u, s))
  {
    TrimLeftHead(u, s);
    TrimRightKeepsHead(u, TrimLeft(u, s));
  }

  lemma {:induction false} TrimRightStops(u: Unicode, s: string)
    requires s != "" && !u.isSpace(s[0])
    ensures TrimRight(u, s) != ""
    ensures u.isSpace(s[|s| - 1]) ==> |TrimRight(u, s)| < |s|
  {
    if u.isSpace(s[|s| - 1]) {
      TrimRightStops(u, s[..|s| - 1]);
      TrimRightKeepsHead(u, s[..|s| - 1]);
    }
  }

  /** A blank at the end of a string that starts with no blank is cut off, and the start stays. */
  lemma TrimDrops(u: Unicode, s: string)
    requires s != "" && !u.isSpace(s[0]) && u.isSpace(s[|s| - 1])
    ensures 0 < |TrimSpace(u, s)| < |s| && TrimSpace(u, s)[0] == s[0]
  {
    TrimRightStops(u, s);
    TrimRightKeepsHead(u, s);
  }

  lemma TrimFixpoint(u: Unicode, s: string)
    requires Trimmed(u, s)
    ensures TrimSpace(u, s) == s
  {
  }

  // ---- Tokens ----

  predicate AllWord(u: Unicode, s: string) {
    forall i :: 0 <= i < |s| ==> u.IsWord(s[i])
  }

  predicate AllLower(u: Unicode, s: string) {
    forall i :: 0 <= i < |s| ==> u.lower(s[i]) == s[i]
  }

  /** Length of the leading run of word characters. */
  function RunLength(u: Unicode, s: string): (n: nat)
    ensures n <= |s|
    ensures forall i :: 0 <= i < n ==> u.IsWord(s[i])
    ensures n < |s| ==> !u.IsWord(s[n])
  {
    if s == "" || !u.IsWord(s[0]) then 0 else 1 + RunLength(u, s[1..])
  }

  /** A run is a token unless it is a single byte that is not a number: a one-letter ASCII word is dropped. */
  predicate Kept(u: Unicode, run: string) {
    |run| > 1 || (|run| == 1 && (run[0] as int >= 0x80 || u.isNumber(run[0])))
  }

  /** The maximal runs of word characters of `s`, in order, that are kept. */
  function Words(u: Unicode, s: string): seq<string>
    decreases |s|
  {
    if s == "" then []
    else if !u.IsWord(s[0]) then Words(u, s[1..])
    else
      var n := RunLength(u, s);
      (if Kept(u, s[..n]) then [s[..n]] else []) + Words(u, s[n..])
  }

  function Tokens(u: Unicode, s: string): seq<string> {
    Words(u, ToLower(u, s))
  }

  function TokenSet(u: Unicode, s: string): set<string> {
    set t | t in Tokens(u, s)
  }

  function NormalizePhrase(u: Unicode, s: string): string {
    Join(Tokens(u, s), " ")
  }

  lemma {:induction false} RunOf(u: Unicode, w: string, s: string)
    requires AllWord(u, w)
    requires s == "" || !u.IsWord(s[0])
    ensures RunLength(u, w + s) == |w|
  {
    if w == "" {
      assert w + s == s;
    } else {
      assert (w + s)[1..] == w[1..] + s;
      RunOf(u, w[1..], s);
    }
  }

  /** A complete run followed by a separator contributes itself and nothing else. */
  lemma WordsOfRun(u: Unicode, w: string, s: string)
    requires w != "" && AllWord(u, w)
    requires s == "" || !u.IsWord(s[0])
    ensures Words(u, w + s) == (if Kept(u, w) then [w] else []) + Words(u, s)
  {
    RunOf(u, w, s);
    assert (w + s)[..|w|] == w && (w + s)[|w|..] == s;
  }

  /** What the buffered run adds when a separator, or the end of the text, follows it. */
  function Flushed(u: Unicode, run: string): seq<string> {
    if Kept(u, run) then [run] else []
  }

  lemma FlushAtSeparator(u: Unicode, run: string, s: string)
    requires AllWord(u, run) && s != "" && !u.IsWord(s[0])
    ensures Words(u, run + s) == Flushed(u, run) + Words(u, s[1..])
  {
    if run == "" {
      assert run + s == s;
    } else {
      WordsOfRun(u, run, s);
    }
  }

  lemma FlushAtEnd(u: Unicode, run: string)
    requires AllWord(u, run)
    ensures Words(u, run) == Flushed(u, run)
  {
    if run != "" {
      WordsOfRun(u, run, "");
      assert run + "" == run;
    }
  }

  /** Loop state: `tokens` are out, `run` is buffered, and the text from `i` on is still to come. */
  ghost predicate Scanned(u: Unicode, s: string, i: nat, run: string, tokens: seq<string>) {
    i <= |s| && AllWord(u, run) && Words(u, s) == tokens + Words(u, run + s[i..])
  }

  lemma ScanWordChar(u: Unicode, s: string, i: nat, run: string, tokens: seq<string>)
    requires Scanned(u, s, i, run, tokens) && i < |s| && u.IsWord(s[i])
    ensures Scanned(u, s, i + 1, run + [s[i]], tokens)
  {
    assert run + s[i..] == (run + [s[i]]) + s[i + 1..];
  }

  lemma ScanSeparator(u: Unicode, s: string, i: nat, run: string, tokens: seq<string>)
    requires Scanned(u, s, i, run, tokens) && i < |s| && !u.IsWord(s[i])
    ensures Scanned(u, s, i + 1, "", tokens + Flushed(u, run))
  {
    FlushAtSeparator(u, run, s[i..]);
    assert s[i..][1..] == "" + s[i + 1..];
  }

  /** Splits text into tokens, one character at a time. */
  method Tokenize(u: Unicode, text: string) returns (tokens: seq<string>)
    ensures tokens == Tokens(u, text)
  {
    tokens := [];
    var current := "";
    var s := ToLower(u, text);
    assert Scanned(u, s, 0, "", []) by { assert "" + s[0..] == s; }
    assert Flushed(u, "") == [];
    for i := 0 to |s|
      invariant Scanned(u, s, i, current, tokens)
    {
      hide Words;
      if u.IsWord(s[i]) {
        ScanWordChar(u, s, i, current, tokens);
        current := current + [s[i]];
        continue;
      }
      ScanSeparator(u, s, i, current, tokens);
      hide Scanned, Words;
      if |current| > 0 {
        if Kept(u, current) { tokens := tokens + [current]; }
        current := "";
      } else {
        assert tokens + Flushed(u, current) == tokens;
      }
    }
    assert current + s[|s|..] == current;
    FlushAtEnd(u, current);
    if |current| > 0 {
      if Kept(u, current) { tokens := tokens + [current]; }
    }
  }

  predicate IsToken(u: Unicode, t: string) {
    t != "" && Kept(u, t) && AllWord(u, t) && AllLower(u, t)
  }

  lemma {:induction false} WordsAreTokens(u: Unicode, s: string)
    requires AllLower(u, s)
    ensures forall t :: t in Words(u, s) ==> IsToken(u, t)
    decreases |s|
  {
    if s == "" {
    } else if !u.IsWord(s[0]) {
      WordsAreTokens(u, s[1..]);
    } else {
      WordsAreTokens(u, s[RunLength(u, s)..]);
    }
  }

  lemma TokensAreTokens(u: Unicode, s: string)
    ensures AllLower(u, ToLower(u, s))
    ensures forall t :: t in Tokens(u, s) ==> IsToken(u, t)
  {
    forall i | 0 <= i < |s| ensures u.lower(ToLower(u, s)[i]) == ToLower(u, s)[i] {
      assert u.lower(u.lower(s[i])) == u.lower(s[i]);
    }
    WordsAreTokens(u, ToLower(u, s));
  }

  /** Nothing but word characters and `mark`. */
  predicate MadeOf(u: Unicode, s: string, mark: char) {
    forall i :: 0 <= i < |s| ==> s[i] == mark || u.IsWord(s[i])
  }

  // ---- What determines tokens and trimming ----

  lemma {:induction false} WordsSplit(u: Unicode, a: string, c: char, b: string)
    requires !u.IsWord(c)
    ensures Words(u, a + [c] + b) == Words(u, a) + Words(u, b)
    decreases |a|
  {
    if a == "" {
      assert ("" + [c] + b)[1..] == b;
    } else if !u.IsWord(a[0]) {
      WordsSplit(u, a[1..], c, b);
      assert (a + [c] + b)[1..] == a[1..] + [c] + b;
    } else {
      var w, rest := a[..RunLength(u, a)], a[RunLength(u, a)..];
      WordsSplit(u, rest, c, b);
      assert a == w + rest && a + [c] + b == w + (rest + [c] + b);
      hide Words;
      WordsOfRun(u, w, rest);
      WordsOfRun(u, w, rest + [c] + b);
      Associate(Flushed(u, w), Words(u, rest), Words(u, b));
    }
  }

  /** A character that is no word character in lower case separates tokens and leaves no trace. */
  lemma TokensSplit(u: Unicode, a: string, c: char, b: string)
    requires !u.isLetter(u.lower(c)) && !u.isNumber(u.lower(c))
    ensures Tokens(u, a + [c] + b) == Tokens(u, a) + Tokens(u, b)
  {
    WordsSplit(u, ToLower(u, a), u.lower(c), ToLower(u, b));
    assert ToLower(u, a + [c] + b) == ToLower(u, a) + [u.lower(c)] + ToLower(u, b);
  }

  /** An unbroken word is one token, in lower case; only a single ASCII character that is no number is dropped. */
  lemma TokensOfWord(u: Unicode, w: string)
    requires w != "" && forall i :: 0 <= i < |w| ==> u.isLetter(u.lower(w[i])) || u.isNumber(u.lower(w[i]))
    ensures |w| > 1 ==> Tokens(u, w) == [ToLower(u, w)]
    ensures |w| == 1 && (u.isNumber(u.lower(w[0])) || u.lower(w[0]) as int >= 0x80) ==> Tokens(u, w) == [ToLower(u, w)]
    ensures |w| == 1 && !u.isNumber(u.lower(w[0])) && (u.lower(w[0]) as int) < 0x80 ==> Tokens(u, w) == []
    ensures Tokens(u, "") == []
  {
    FlushAtEnd(u, ToLower(u, w));
  }

  lemma {:induction false} JoinSplit(a: seq<string>, b: seq<string>, sep: string)
    ensures Join(a + b, sep) == if a == [] then Join(b, sep) else if b == [] then Join(a, sep)
                                else Join(a, sep) + sep + Join(b, sep)
  {
    if a == [] {
      assert a + b == b;
    } else if b == [] {
      assert a + b == a;
    } else {
      JoinSplit(a[1..], b, sep);
      assert (a + b)[1..] == a[1..] + b;
    }
  }

  lemma TokensOfPhrase(u: Unicode, s: string)
    ensures NormalizePhrase(u, s) == "" <==> Tokens(u, s) == []
  {
    TokensAreTokens(u, s);
    if Tokens(u, s) != [] { assert IsToken(u, Tokens(u, s)[0]); }
  }

  /** A phrase is its parts' phrases with one blank between them, wherever it is taken apart. */
  lemma PhraseSplit(u: Unicode, a: string, c: char, b: string)
    requires !u.isLetter(u.lower(c)) && !u.isNumber(u.lower(c))
    ensures var x, y := NormalizePhrase(u, a), NormalizePhrase(u, b);
            NormalizePhrase(u, a + [c] + b) == if x == "" then y else if y == "" then x else x + " " + y
  {
    TokensSplit(u, a, c, b);
    JoinSplit(Tokens(u, a), Tokens(u, b), " ");
    TokensOfPhrase(u, a);
    TokensOfPhrase(u, b);
  }

  lemma {:induction false} TrimLeftCuts(u: Unicode, s: string) returns (i: nat)
    ensures i <= |s| && TrimLeft(u, s) == s[i..] && forall k :: 0 <= k < i ==> u.isSpace(s[k])
  {
    if s != "" && u.isSpace(s[0]) {
      var j := TrimLeftCuts(u, s[1..]);
      assert s[1..][j..] == s[j + 1..];
      assert forall k :: 0 <= k < j ==> s[1..][k] == s[k + 1];
      i := j + 1;
    } else {
      i := 0;
    }
  }

  lemma {:induction false} TrimRightCuts(u: Unicode, s: string) returns (n: nat)
    ensures n <= |s| && TrimRight(u, s) == s[..n] && forall k :: n <= k < |s| ==> u.isSpace(s[k])
  {
    if s != "" && u.isSpace(s[|s| - 1]) {
      n := TrimRightCuts(u, s[..|s| - 1]);
    } else {
      n := |s|;
    }
  }

  /** Trimming cuts off blanks at both ends, all of them and nothing else. */
  lemma TrimSpaceCuts(u: Unicode, s: string)
    ensures exists i, j :: 0 <= i <= j <= |s| && TrimSpace(u, s) == s[i..j]
              && (forall k :: 0 <= k < i ==> u.isSpace(s[k])) && (forall k :: j <= k < |s| ==> u.isSpace(s[k]))
    ensures TrimSpace(u, s) == ""
            || (!u.isSpace(TrimSpace(u, s)[0]) && !u.isSpace(TrimSpace(u, s)[|TrimSpace(u, s)| - 1]))
  {
    var i := TrimLeftCuts(u, s);
    var n := TrimRightCuts(u, s[i..]);
    assert s[i..][..n] == s[i..i + n];
    assert forall k :: i + n <= k < |s| ==> s[k] == s[i..][k - i];
    TrimmedOnce(u, s);
  }

  // ---- A normal form is a fixed point ----

  lemma WordsAfterMark(u: Unicode, mark: char, s: string)
    requires !u.IsWord(mark)
    ensures Words(u, [mark] + s) == Words(u, s)
  {
    assert ([mark] + s)[1..] == s;
  }

  lemma WordThenMark(u: Unicode, w: string, mark: char, rest: string)
    requires IsToken(u, w) && !u.IsWord(mark)
    ensures Words(u, w) == [w]
    ensures Words(u, w + [mark] + rest) == [w] + Words(u, rest)
  {
    assert Words(u, "") == [] && w + "" == w;
    hide Words;
    WordsOfRun(u, w, "");
    WordsOfRun(u, w, [mark] + rest);
    WordsAfterMark(u, mark, rest);
    assert w + [mark] + rest == w + ([mark] + rest);
  }

  /** Tokens joined by a character that is no word character come apart again. */
  lemma {:induction false} WordsOfJoin(u: Unicode, parts: seq<string>, mark: char)
    requires !u.IsWord(mark) && forall p :: p in parts ==> IsToken(u, p)
    ensures Words(u, Join(parts, [mark])) == parts
  {
    assert Words(u, "") == [];
    hide Words, IsToken;
    if |parts| == 1 {
      WordThenMark(u, parts[0], mark, "");
    } else if |parts| > 1 {
      WordsOfJoin(u, parts[1..], mark);
      WordThenMark(u, parts[0], mark, Join(parts[1..], [mark]));
    }
  }

  lemma {:induction false} JoinIsClean(u: Unicode, parts: seq<string>, mark: char)
    requires u.lower(mark) == mark && forall p :: p in parts ==> IsToken(u, p)
    ensures MadeOf(u, Join(parts, [mark]), mark) && AllLower(u, Join(parts, [mark]))
  {
    if |parts| == 1 {
      assert IsToken(u, parts[0]);
    } else if |parts| > 1 {
      assert IsToken(u, parts[0]);
      JoinIsClean(u, parts[1..], mark);
    }
  }

  /** Normalised text consists of word characters and blanks. */
  lemma PhraseIsPlain(u: Unicode, s: string)
    ensures MadeOf(u, NormalizePhrase(u, s), ' ')
  {
    TokensAreTokens(u, s);
    JoinIsClean(u, Tokens(u, s), ' ');
  }

  /** Tokens written with '-' or '.' between them normalise to the same tokens with blanks. */
  lemma PhraseOfJoin(u: Unicode, parts: seq<string>, mark: char)
    requires mark in {' ', '-', '.'} && forall p :: p in parts ==> IsToken(u, p)
    ensures NormalizePhrase(u, Join(parts, [mark])) == Join(parts, " ")
  {
    assert !u.IsWord(mark) && u.lower(mark) == mark;
    WordsOfJoin(u, parts, mark);
    JoinIsClean(u, parts, mark);
    assert ToLower(u, Join(parts, [mark])) == Join(parts, [mark]);
  }

  /** Normalising twice is normalising once: a phrase can be used as its own key. */
  lemma NormalizePhraseIdempotent(u: Unicode, s: string)
    ensures NormalizePhrase(u, NormalizePhrase(u, s)) == NormalizePhrase(u, s)
  {
    TokensAreTokens(u, s);
    PhraseOfJoin(u, Tokens(u, s), ' ');
  }
}
