/**
  Mismatch highlighting: `highlight_errors` (typingspeed.py:89-97).
  The typed buffer and the target text are both stripped and split into
  tokens; typed token `i` is flagged when the target has no token at `i` or
  a different one (compared as raw strings, so case matters), and a flagged
  token is marked over the characters `[Width(typed[..i]), Width(typed[..i+1]))`,
  where each earlier token counts its length plus one separator.
 */
module Highlight {
  import opened Text

  /** A character range `[start, end)` of the typed buffer marked as a mistake. */
  datatype Span = Span(start: nat, end: nat)

  /** The tokens `s.strip().split()`. */
  function Tokens(s: string): seq<string> {
    Split(Strip(s))
  }

  /** `sum(len(w) + 1 for w in ws)`: the characters `ws` takes with one separator after each token. */
  function Width(ws: seq<string>): nat {
    if ws == [] then 0 else |ws[0]| + 1 + Width(ws[1..])
  }

  /** Typed token `i` is flagged: the target has no token at `i`, or a different one. */
  predicate Flagged(typed: seq<string>, ref: seq<string>, i: nat)
    requires i < |typed|
  {
    i >= |ref| || typed[i] != ref[i]
  }

  /** The span marked for typed token `i`. */
  function WordSpan(typed: seq<string>, i: nat): Span
    requires i < |typed|
  {
    Span(Width(typed[..i]), Width(typed[..i + 1]))
  }

  /** The spans marked for the first `n` typed tokens, in order. */
  function SpansUpTo(typed: seq<string>, ref: seq<string>, n: nat): seq<Span>
    requires n <= |typed|
  {
    if n == 0 then []
    else SpansUpTo(typed, ref, n - 1) + (if Flagged(typed, ref, n - 1) then [WordSpan(typed, n - 1)] else [])
  }

  /** Every span marked for a typed buffer with tokens `typed` against target tokens `ref`. */
  function MismatchSpans(typed: seq<string>, ref: seq<string>): seq<Span> {
    SpansUpTo(typed, ref, |typed|)
  }

  /**
    `highlight_errors`: the old marks are dropped, then each typed token is
    compared with the target token at its position, and a mark is added for
    every flagged one.
   */
  method HighlightErrors(buffer: string, text: string) returns (spans: seq<Span>)
    ensures spans == MismatchSpans(Tokens(buffer), Tokens(text))
  {
    var typed, ref := Tokens(buffer), Tokens(text);
    spans := [];
    for i := 0 to |typed|
      invariant spans == SpansUpTo(typed, ref, i)
    {
      if i >= |ref| || typed[i] != ref[i] {
        var start := Width(typed[..i]);
        var end := Width(typed[..i + 1]);
        spans := spans + [Span(start, end)];
      }
    }
  }

  /** Adding one token to the end widens by that token and its separator. */
  lemma {:induction false} WidthSnoc(ws: seq<string>, w: string)
    ensures Width(ws + [w]) == Width(ws) + |w| + 1
  {
    if ws != [] {
      assert (ws + [w])[1..] == ws[1..] + [w];
      WidthSnoc(ws[1..], w);
    }
  }

  /** The width of a prefix grows with the prefix: each token adds its length and one. */
  lemma WidthPrefix(ws: seq<string>, i: nat)
    requires i < |ws|
    ensures Width(ws[..i + 1]) == Width(ws[..i]) + |ws[i]| + 1
  {
    assert ws[..i + 1] == ws[..i] + [ws[i]];
    WidthSnoc(ws[..i], ws[i]);
  }

  /** Later tokens start no earlier than where earlier ones end. */
  lemma {:induction false} WidthMonotone(ws: seq<string>, i: nat, j: nat)
    requires i <= j <= |ws|
    ensures Width(ws[..i]) <= Width(ws[..j])
    decreases j - i
  {
    if i < j {
      WidthPrefix(ws, i);
      WidthMonotone(ws, i + 1, j);
    }
  }

  /** The span of token `i` has the token's length plus one separator. */
  lemma WordSpanLength(typed: seq<string>, i: nat)
    requires i < |typed|
    ensures WordSpan(typed, i).end == WordSpan(typed, i).start + |typed[i]| + 1
  {
    WidthPrefix(typed, i);
  }

  /** Every span in `SpansUpTo(.., n)` belongs to a flagged token below `n`. */
  lemma {:induction false} SpansUpToFrom(typed: seq<string>, ref: seq<string>, n: nat, k: nat)
    requires n <= |typed| && k < |SpansUpTo(typed, ref, n)|
    ensures exists i :: 0 <= i < n && Flagged(typed, ref, i) && SpansUpTo(typed, ref, n)[k] == WordSpan(typed, i)
  {
    var prior := SpansUpTo(typed, ref, n - 1);
    if k < |prior| {
      SpansUpToFrom(typed, ref, n - 1, k);
      var i :| 0 <= i < n - 1 && Flagged(typed, ref, i) && prior[k] == WordSpan(typed, i);
      assert SpansUpTo(typed, ref, n)[k] == prior[k];
    } else {
      assert SpansUpTo(typed, ref, n)[k] == WordSpan(typed, n - 1);
    }
  }

  /** Every span in `SpansUpTo(.., n)` ends no later than where token `n` starts. */
  lemma SpansUpToBelow(typed: seq<string>, ref: seq<string>, n: nat, k: nat)
    requires n <= |typed| && k < |SpansUpTo(typed, ref, n)|
    ensures SpansUpTo(typed, ref, n)[k].end <= Width(typed[..n])
  {
    SpansUpToFrom(typed, ref, n, k);
    var i :| 0 <= i < n && Flagged(typed, ref, i) && SpansUpTo(typed, ref, n)[k] == WordSpan(typed, i);
    WidthMonotone(typed, i + 1, n);
  }

  /** Spans are strictly ordered: each ends no later than the next one starts, and none is empty. */
  predicate Ordered(spans: seq<Span>) {
    && (forall k :: 0 <= k < |spans| ==> spans[k].start < spans[k].end)
    && (forall k, m :: 0 <= k < m < |spans| ==> spans[k].end <= spans[m].start)
  }

  lemma {:induction false} SpansUpToOrdered(typed: seq<string>, ref: seq<string>, n: nat)
    requires n <= |typed|
    ensures Ordered(SpansUpTo(typed, ref, n))
  {
    if n > 0 {
      var prior := SpansUpTo(typed, ref, n - 1);
      SpansUpToOrdered(typed, ref, n - 1);
      if Flagged(typed, ref, n - 1) {
        var s := WordSpan(typed, n - 1);
        WordSpanLength(typed, n - 1);
        forall k | 0 <= k < |prior|
          ensures prior[k].end <= s.start
        {
          SpansUpToBelow(typed, ref, n - 1, k);
        }
      }
    }
  }

  /**
    The marks are strictly increasing and do not overlap, and each one is the
    span of a flagged token, as long as that token plus its separator.
   */
  lemma MismatchSpansShape(typed: seq<string>, ref: seq<string>)
    ensures Ordered(MismatchSpans(typed, ref))
    ensures forall k :: 0 <= k < |MismatchSpans(typed, ref)| ==>
      exists i :: (0 <= i < |typed| && Flagged(typed, ref, i) && MismatchSpans(typed, ref)[k] == WordSpan(typed, i)
        && MismatchSpans(typed, ref)[k].end - MismatchSpans(typed, ref)[k].start == |typed[i]| + 1)
  {
    var spans := MismatchSpans(typed, ref);
    SpansUpToOrdered(typed, ref, |typed|);
    forall k | 0 <= k < |spans|
      ensures exists i :: (0 <= i < |typed| && Flagged(typed, ref, i) && spans[k] == WordSpan(typed, i)
        && spans[k].end - spans[k].start == |typed[i]| + 1)
    {
      SpansUpToFrom(typed, ref, |typed|, k);
      var i :| 0 <= i < |typed| && Flagged(typed, ref, i) && spans[k] == WordSpan(typed, i);
      WordSpanLength(typed, i);
    }
    assert forall k :: 0 <= k < |spans| ==> exists i :: (0 <= i < |typed| && Flagged(typed, ref, i) && spans[k] == WordSpan(typed, i)
      && spans[k].end - spans[k].start == |typed[i]| + 1);
  }

  /** Token `i` below `n` is marked in `SpansUpTo(.., n)` exactly when it is flagged. */
  lemma {:induction false} SpansUpToHas(typed: seq<string>, ref: seq<string>, n: nat, i: nat)
    requires i < n <= |typed|
    ensures WordSpan(typed, i) in SpansUpTo(typed, ref, n) <==> Flagged(typed, ref, i)
  {
    var prior := SpansUpTo(typed, ref, n - 1);
    var s := WordSpan(typed, i);
    WidthPrefix(typed, i);
    if i == n - 1 {
      if s in prior {
        var k :| 0 <= k < |prior| && prior[k] == s;
        SpansUpToBelow(typed, ref, n - 1, k);
      }
    } else {
      SpansUpToHas(typed, ref, n - 1, i);
      if Flagged(typed, ref, n - 1) {
        WidthMonotone(typed, i + 1, n - 1);
        WidthPrefix(typed, n - 1);
        assert WordSpan(typed, n - 1) != s;
      }
    }
  }

  /**
    A typed token is marked exactly when it is flagged: past the end of the
    target, or different from the target token at its position.
   */
  lemma MarkedIffFlagged(typed: seq<string>, ref: seq<string>, i: nat)
    requires i < |typed|
    ensures WordSpan(typed, i) in MismatchSpans(typed, ref) <==> (i >= |ref| || typed[i] != ref[i])
  {
    SpansUpToHas(typed, ref, |typed|, i);
  }

  /** No token below `n` is flagged exactly when nothing is marked. */
  lemma {:induction false} SpansUpToEmpty(typed: seq<string>, ref: seq<string>, n: nat)
    requires n <= |typed|
    ensures SpansUpTo(typed, ref, n) == [] <==> forall i :: 0 <= i < n ==> !Flagged(typed, ref, i)
  {
    if n > 0 {
      SpansUpToEmpty(typed, ref, n - 1);
    }
  }

  /** Nothing is marked exactly when the typed tokens are, word for word, a prefix of the target's. */
  lemma NoMarksIffPrefix(typed: seq<string>, ref: seq<string>)
    ensures MismatchSpans(typed, ref) == [] <==> |typed| <= |ref| && typed == ref[..|typed|]
  {
    SpansUpToEmpty(typed, ref, |typed|);
    if |typed| <= |ref| && typed == ref[..|typed|] {
      assert forall i :: 0 <= i < |typed| ==> typed[i] == ref[..|typed|][i];
    }
    if forall i :: 0 <= i < |typed| ==> !Flagged(typed, ref, i) {
      if |typed| > 0 {
        assert !Flagged(typed, ref, |typed| - 1);
      }
      forall i | 0 <= i < |typed|
        ensures typed[i] == ref[..|typed|][i]
      {
        assert !Flagged(typed, ref, i);
      }
    }
  }

  /**
    When the typed buffer holds its tokens separated by single spaces, the
    span of token `i` starts where that token starts in the buffer.
   */
  lemma {:induction false} SpanCoversWord(ws: seq<string>, i: nat)
    requires forall k :: 0 <= k < |ws| ==> IsWord(ws[k])
    requires i < |ws|
    ensures Width(ws[..i]) + |ws[i]| <= |Join(ws)|
    ensures Join(ws)[Width(ws[..i])..Width(ws[..i]) + |ws[i]|] == ws[i]
  {
    JoinOfWords(ws);
    if i == 0 {
      assert ws[..0] == [];
    } else {
      var tail := ws[1..];
      assert forall k :: 0 <= k < |tail| ==> IsWord(tail[k]);
      SpanCoversWord(tail, i - 1);
      assert ws[..i][1..] == tail[..i - 1];
      assert ws[..i] != [];
      var w := Width(ws[..i]);
      assert w == |ws[0]| + 1 + Width(tail[..i - 1]);
      assert Join(ws) == ws[0] + " " + Join(tail);
      assert Join(ws)[w..w + |ws[i]|] == Join(tail)[w - |ws[0]| - 1..w - |ws[0]| - 1 + |ws[i]|];
    }
  }

  /**
    Highlighting compares raw tokens while completion compares normalized
    text: typing "the Quick brown fox" for "The quick brown fox" marks the
    first two words although the lower-cased tokens agree.
   */
  lemma CaseSensitiveMarks()
    ensures var typed, ref := ["the", "Quick", "brown", "fox"], ["The", "quick", "brown", "fox"];
      && MismatchSpans(typed, ref) == [Span(0, 4), Span(4, 10)]
      && (forall i :: 0 <= i < |typed| ==> Lower(typed[i]) == Lower(ref[i]))
  {
    var typed, ref := ["the", "Quick", "brown", "fox"], ["The", "quick", "brown", "fox"];
    assert typed[..0] == [] && typed[..1] == ["the"] && typed[..2] == ["the", "Quick"];
    assert Width(["Quick"]) == 6;
    assert !Flagged(typed, ref, 2) && !Flagged(typed, ref, 3);
    assert SpansUpTo(typed, ref, 2) == [Span(0, 4), Span(4, 10)];
    assert Lower("the") == "the" == Lower("The");
    assert Lower("Quick") == "quick" == Lower("quick");
  }
}
