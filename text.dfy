/**
  The string primitives the tester relies on, as Python's `str` methods behave:
  `lower()`, `strip()`, `split()` without a separator, `' '.join(...)`, and the
  `normalize` helper built from them (typingspeed.py:23), which decides when an
  attempt is complete.
 */
module Text {

  /** Python's whitespace (`str.isspace`, and what `split()` and `strip()` drop). */
  predicate IsSpace(c: char) {
    || ('\t' <= c <= '\r')
    || ('\U{1C}' <= c <= ' ')
    || c == '\U{85}' || c == '\U{A0}' || c == '\U{1680}'
    || ('\U{2000}' <= c <= '\U{200A}')
    || c == '\U{2028}' || c == '\U{2029}' || c == '\U{202F}' || c == '\U{205F}'
    || c == '\U{3000}'
  }

  predicate IsUpper(c: char) {
    'A' <= c <= 'Z'
  }

  function LowerChar(c: char): (d: char)
    ensures !IsUpper(d)
    ensures IsSpace(d) <==> IsSpace(c)
    ensures !IsUpper(c) ==> d == c
  {
    if IsUpper(c) then (c as int - 'A' as int + 'a' as int) as char else c
  }

  predicate AllLower(s: string) {
    forall i :: 0 <= i < |s| ==> !IsUpper(s[i])
  }

  /** `s.lower()`: every letter lowered, nothing else touched. */
  function Lower(s: string): (r: string)
    ensures |r| == |s|
  {
    seq(|s|, i requires 0 <= i < |s| => LowerChar(s[i]))
  }

  /** `lower()` leaves no upper-case letter, and keeps whitespace where it was. */
  lemma LowerShape(s: string)
    ensures AllLower(Lower(s))
    ensures forall i :: 0 <= i < |s| ==> (IsSpace(Lower(s)[i]) <==> IsSpace(s[i]))
  {
  }

  /** Lower-case text is its own `lower()`. */
  lemma LowerOfLower(s: string)
    requires AllLower(s)
    ensures Lower(s) == s
  {
  }

  /** What `lstrip()` keeps: the suffix after the leading whitespace. */
  function TrimLeft(s: string): string {
    if s != [] && IsSpace(s[0]) then TrimLeft(s[1..]) else s
  }

  /** What `lstrip()` keeps is a suffix of the text, and what it drops is whitespace. */
  lemma {:induction false} TrimLeftSuffix(s: string)
    ensures |TrimLeft(s)| <= |s| && TrimLeft(s) == s[|s| - |TrimLeft(s)|..]
    ensures TrimLeft(s) == [] || !IsSpace(TrimLeft(s)[0])
    ensures forall i :: 0 <= i < |s| - |TrimLeft(s)| ==> IsSpace(s[i])
  {
    if s != [] && IsSpace(s[0]) {
      var t := s[1..];
      TrimLeftSuffix(t);
      assert t[|t| - |TrimLeft(t)|..] == s[|s| - |TrimLeft(s)|..];
      forall i | 1 <= i < |s| - |TrimLeft(s)|
        ensures IsSpace(s[i])
      {
        assert s[i] == t[i - 1];
      }
    }
  }

  /** What `rstrip()` keeps: the prefix before the trailing whitespace. */
  function TrimRight(s: string): string {
    if s != [] && IsSpace(s[|s| - 1]) then TrimRight(s[..|s| - 1]) else s
  }

  /** What `rstrip()` keeps is a prefix of the text, and what it drops is whitespace. */
  lemma {:induction false} TrimRightPrefix(s: string)
    ensures |TrimRight(s)| <= |s| && TrimRight(s) == s[..|TrimRight(s)|]
    ensures TrimRight(s) == [] || !IsSpace(TrimRight(s)[|TrimRight(s)| - 1])
    ensures forall i :: |TrimRight(s)| <= i < |s| ==> IsSpace(s[i])
  {
    if s != [] && IsSpace(s[|s| - 1]) {
      var t := s[..|s| - 1];
      TrimRightPrefix(t);
      assert t[..|TrimRight(t)|] == s[..|TrimRight(s)|];
    }
  }

  /** Neither the first nor the last character is whitespace. */
  predicate Trimmed(s: string) {
    s == [] || (!IsSpace(s[0]) && !IsSpace(s[|s| - 1]))
  }

  /** `s` is `r` with only whitespace before position `k` and after `r`. */
  predicate Surrounds(s: string, k: int, r: string) {
    && 0 <= k <= |s| - |r|
    && r == s[k..k + |r|]
    && (forall i :: 0 <= i < k ==> IsSpace(s[i]))
    && (forall i :: k + |r| <= i < |s| ==> IsSpace(s[i]))
  }

  /** `s.strip()`: the part of `s` between its leading and trailing whitespace. */
  function Strip(s: string): (r: string)
    ensures Trimmed(r)
  {
    TrimLeftSuffix(s);
    TrimRightPrefix(TrimLeft(s));
    TrimRight(TrimLeft(s))
  }

  /** Text with no whitespace at either end is its own `strip()`. */
  lemma StripTrimmed(s: string)
    requires Trimmed(s)
    ensures Strip(s) == s
  {
  }

  /** `strip()` removes whitespace only, and only at the two ends. */
  lemma StripSurrounds(s: string)
    ensures exists k :: Surrounds(s, k, Strip(s))
  {
    var t := TrimLeft(s);
    TrimLeftSuffix(s);
    TrimRightPrefix(t);
    assert Surrounds(s, |s| - |t|, Strip(s));
  }

  function StartsWith(s: string, prefix: string): bool {
    |prefix| <= |s| && s[..|prefix|] == prefix
  }

  /** The length of the run of non-whitespace characters that `t` starts with. */
  function WordLength(t: string): nat {
    if t == [] || IsSpace(t[0]) then 0 else 1 + WordLength(t[1..])
  }

  /** The run `WordLength` measures lies in `t`, holds no whitespace, and ends at whitespace or at the end. */
  lemma {:induction false} WordLengthRun(t: string)
    ensures WordLength(t) <= |t|
    ensures forall i :: 0 <= i < WordLength(t) ==> !IsSpace(t[i])
    ensures WordLength(t) == |t| || IsSpace(t[WordLength(t)])
  {
    if t != [] && !IsSpace(t[0]) {
      WordLengthRun(t[1..]);
      forall i | 1 <= i < WordLength(t)
        ensures !IsSpace(t[i])
      {
        assert t[i] == t[1..][i - 1];
      }
    }
  }

  /** A token of `split()`: non-empty, free of whitespace. */
  predicate IsWord(w: string) {
    |w| > 0 && forall i :: 0 <= i < |w| ==> !IsSpace(w[i])
  }

  /** `s.split()`: the maximal runs of non-whitespace characters, in order. */
  function Split(s: string): seq<string>
    decreases |s|
  {
    var t := TrimLeft(s);
    if t == [] then []
    else
      var n := WordLength(t);
      TrimLeftSuffix(s);
      WordLengthRun(t);
      [t[..n]] + Split(t[n..])
  }

  /** Every token of `split()` is a word: non-empty and free of whitespace. */
  lemma {:induction false} SplitWords(s: string)
    ensures forall k :: 0 <= k < |Split(s)| ==> IsWord(Split(s)[k])
    decreases |s|
  {
    var t := TrimLeft(s);
    if t != [] {
      var n := WordLength(t);
      TrimLeftSuffix(s);
      WordLengthRun(t);
      SplitWords(t[n..]);
      assert IsWord(t[..n]);
      assert Split(s) == [t[..n]] + Split(t[n..]);
    }
  }

  /** `' '.join(ws)`. */
  function Join(ws: seq<string>): string {
    if |ws| == 0 then []
    else if |ws| == 1 then ws[0]
    else ws[0] + " " + Join(ws[1..])
  }

  /**
    Text whose only whitespace is single spaces strictly between two
    non-whitespace characters: no leading or trailing whitespace and no two
    whitespace characters in a row.
   */
  predicate Collapsed(s: string) {
    && (forall i :: 0 <= i < |s| && IsSpace(s[i]) ==> s[i] == ' ' && 0 < i < |s| - 1)
    && (forall i, j {:trigger s[i], s[j]} :: 0 <= i < |s| && 0 <= j < |s| && j == i + 1 ==> !IsSpace(s[i]) || !IsSpace(s[j]))
  }

  /** `normalize` (typingspeed.py:23): lower-case, strip, and re-join the tokens with single spaces. */
  function Normalize(text: string): string {
    Join(Split(Strip(Lower(text))))
  }

  /** Normalized text is lower-case, with single spaces between its tokens and none at either end. */
  lemma NormalizeShape(text: string)
    ensures AllLower(Normalize(text)) && Collapsed(Normalize(text))
  {
    var low := Lower(text);
    LowerShape(text);
    TrimLeftSuffix(low);
    TrimRightPrefix(TrimLeft(low));
    SplitKeepsLower(Strip(low));
    SplitWords(Strip(low));
    JoinOfWords(Split(Strip(low)));
  }

  lemma {:induction false} WordLengthOfWord(w: string, rest: string)
    requires forall i :: 0 <= i < |w| ==> !IsSpace(w[i])
    requires rest == [] || IsSpace(rest[0])
    ensures WordLength(w + rest) == |w|
  {
    if w != [] {
      assert (w + rest)[1..] == w[1..] + rest;
      WordLengthOfWord(w[1..], rest);
    }
  }

  /** Tokens of a lower-case text are lower-case. */
  lemma {:induction false} SplitKeepsLower(s: string)
    requires AllLower(s)
    ensures forall k :: 0 <= k < |Split(s)| ==> AllLower(Split(s)[k])
    decreases |s|
  {
    var t := TrimLeft(s);
    TrimLeftSuffix(s);
    if t != [] {
      var n := WordLength(t);
      WordLengthRun(t);
      SplitKeepsLower(t[n..]);
    }
  }

  /** Joining tokens gives collapsed text that begins with the first token. */
  lemma {:induction false} JoinOfWords(ws: seq<string>)
    requires forall k :: 0 <= k < |ws| ==> IsWord(ws[k])
    ensures Collapsed(Join(ws))
    ensures |ws| > 0 ==> |Join(ws)| >= |ws[0]| && Join(ws)[..|ws[0]|] == ws[0]
    ensures (forall k :: 0 <= k < |ws| ==> AllLower(ws[k])) ==> AllLower(Join(ws))
  {
    if |ws| > 1 {
      JoinOfWords(ws[1..]);
      var w, j := ws[0], Join(ws[1..]);
      var s := w + " " + j;
      assert Join(ws) == s;
      assert |j| > 0 && j[0] == ws[1][0];
      forall i | 0 <= i < |s| && IsSpace(s[i])
        ensures s[i] == ' ' && 0 < i < |s| - 1
      {
        if i > |w| {
          assert s[i] == j[i - |w| - 1];
        }
      }
      forall i, k | 0 <= i < k < |s| && k == i + 1
        ensures !IsSpace(s[i]) || !IsSpace(s[k])
      {
        if i > |w| {
          assert s[i] == j[i - |w| - 1] && s[k] == j[k - |w| - 1];
        } else if i == |w| {
          assert s[k] == j[0];
        }
      }
      assert s[..|w|] == w;
    }
  }

  /** A token followed by whitespace (or nothing) is the first token. */
  lemma {:induction false} SplitCons(w: string, rest: string)
    requires IsWord(w)
    requires rest == [] || IsSpace(rest[0])
    ensures Split(w + rest) == [w] + Split(rest)
  {
    var s := w + rest;
    assert TrimLeft(s) == s;
    WordLengthOfWord(w, rest);
    assert s[..|w|] == w;
    assert s[|w|..] == rest;
  }

  /** Leading whitespace does not change the tokens. */
  lemma {:induction false} SplitSkipSpace(c: char, t: string)
    requires IsSpace(c)
    ensures Split([c] + t) == Split(t)
  {
    assert ([c] + t)[1..] == t;
    assert TrimLeft([c] + t) == TrimLeft(t);
  }

  /** A single token splits to itself. */
  lemma {:induction false} SplitOfWord(w: string)
    requires IsWord(w)
    ensures Split(w) == [w]
  {
    assert TrimLeft(w) == w;
    WordLengthOfWord(w, []);
    assert w + [] == w;
    assert w[..|w|] == w && w[|w|..] == [];
    SplitEmpty();
  }

  /** Splitting a token, a space and more text gives the token, then the tokens of the rest. */
  lemma {:induction false} SplitJoinStep(w: string, j: string)
    requires IsWord(w)
    ensures Split(w + " " + j) == [w] + Split(j)
  {
    var rest := [' '] + j;
    assert w + " " + j == w + rest;
    SplitCons(w, rest);
    SplitSkipSpace(' ', j);
  }

  /** The empty text has no tokens. */
  lemma SplitEmpty()
    ensures Split([]) == []
  {
    assert TrimLeft([]) == [];
  }

  /** The base case of `SplitJoin`: joining no token gives no token back. */
  lemma {:induction false} SplitJoinNone(ws: seq<string>)
    requires |ws| == 0
    ensures Split(Join(ws)) == ws
  {
    SplitEmpty();
  }

  /** The step of `SplitJoin`: the first token comes back, then the others. */
  lemma {:induction false} SplitJoinCons(ws: seq<string>)
    requires forall k :: 0 <= k < |ws| ==> IsWord(ws[k])
    requires |ws| > 1 && Split(Join(ws[1..])) == ws[1..]
    ensures Split(Join(ws)) == ws
  {
    assert Join(ws) == ws[0] + " " + Join(ws[1..]);
    SplitJoinStep(ws[0], Join(ws[1..]));
    assert ws == [ws[0]] + ws[1..];
  }

  /** `split()` undoes `' '.join` on tokens. */
  lemma {:induction false} SplitJoin(ws: seq<string>)
    requires forall k :: 0 <= k < |ws| ==> IsWord(ws[k])
    ensures Split(Join(ws)) == ws
  {
    if |ws| == 0 {
      SplitJoinNone(ws);
    } else if |ws| == 1 {
      assert Join(ws) == ws[0];
      SplitOfWord(ws[0]);
      assert ws == [ws[0]];
    } else {
      var tail := ws[1..];
      assert forall k :: 0 <= k < |tail| ==> IsWord(tail[k]);
      SplitJoin(tail);
      SplitJoinCons(ws);
    }
  }

  /** Collapsed text survives `strip()` unchanged. */
  lemma CollapsedIsTrimmed(s: string)
    requires Collapsed(s)
    ensures Trimmed(s)
  {
    if s != [] {
      assert !IsSpace(s[0]);
      assert !IsSpace(s[|s| - 1]);
    }
  }

  /** Normalizing twice is normalizing once. */
  lemma NormalizeIdempotent(text: string)
    ensures Normalize(Normalize(text)) == Normalize(text)
  {
    var ws := Split(Strip(Lower(text)));
    var r := Join(ws);
    NormalizeShape(text);
    SplitWords(Strip(Lower(text)));
    CollapsedIsTrimmed(r);
    LowerOfLower(r);
    StripTrimmed(r);
    SplitJoin(ws);
  }

  /**
    Two texts normalize alike exactly when they have the same tokens once
    lower-cased: completion ignores case and the amount of whitespace, and
    nothing else.
   */
  lemma NormalizeEqual(a: string, b: string)
    ensures Normalize(a) == Normalize(b) <==> Split(Strip(Lower(a))) == Split(Strip(Lower(b)))
  {
    var wa, wb := Split(Strip(Lower(a))), Split(Strip(Lower(b)));
    if Normalize(a) == Normalize(b) {
      SplitWords(Strip(Lower(a)));
      SplitWords(Strip(Lower(b)));
      SplitJoin(wa);
      SplitJoin(wb);
    }
  }
}
