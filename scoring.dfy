/**
  The arithmetic and the level policy of `show_results` (typingspeed.py:99-119):
  words typed, words per minute, accuracy against the grammar checker's
  findings, and the suggestion that may move the level one step.
  Speed and accuracy are exact reals here.
 */
module Scoring {
  import opened Text
  import opened Catalog

  /** The number of tokens in the typed buffer: `len(typed.strip().split())`. */
  function WordCount(buffer: string): nat {
    |Split(Strip(buffer))|
  }

  /** Text made of tokens separated by single spaces has as many words as tokens. */
  lemma WordCountOfJoin(ws: seq<string>)
    requires forall k :: 0 <= k < |ws| ==> IsWord(ws[k])
    ensures WordCount(Join(ws)) == |ws|
  {
    var j := Join(ws);
    assert Strip(j) == j by {
      JoinOfWords(ws);
      CollapsedIsTrimmed(j);
      StripTrimmed(j);
    }
    assert Split(j) == ws by {
      SplitJoin(ws);
    }
  }

  /**
    Words per minute: `len(words) / (time_taken / 60)`, or 0 when no time
    has been measured (a zero elapsed time is falsy in the source).
   */
  function Speed(words: nat, elapsed: real): (r: real)
    ensures elapsed == 0.0 ==> r == 0.0
    ensures elapsed > 0.0 ==> r >= 0.0
  {
    if elapsed == 0.0 then 0.0 else words as real / (elapsed / 60.0)
  }

  /** Over a measured time, the speed is `words * 60 / elapsed`: times the seconds taken, it gives sixty per word. */
  lemma SpeedRate(words: nat, elapsed: real)
    requires elapsed != 0.0
    ensures Speed(words, elapsed) * elapsed == words as real * 60.0
  {
    var m := elapsed / 60.0;
    assert Speed(words, elapsed) * m == words as real;
    assert elapsed == m * 60.0;
  }

  function Max1(n: nat): nat {
    if n < 1 then 1 else n
  }

  /** `max(0, 100 - (errors / max(1, words)) * 100)`. */
  function Accuracy(errors: nat, words: nat): (r: real)
    ensures 0.0 <= r <= 100.0
    ensures r == 100.0 <==> errors == 0
    ensures r == 0.0 <==> errors >= Max1(words)
  {
    var d := Max1(words) as real;
    var a := 100.0 - (errors as real / d) * 100.0;
    RatioAtLeastOne(errors as real, d);
    if a < 0.0 then 0.0 else a
  }

  lemma SignOfProduct(x: real, d: real)
    requires d > 0.0
    ensures x >= 0.0 <==> x * d >= 0.0
  {
    if x < 0.0 {
      assert x * d == -((-x) * d);
    }
  }

  lemma RatioAtLeastOne(e: real, d: real)
    requires e >= 0.0 && d > 0.0
    ensures e / d >= 1.0 <==> e >= d
    ensures e / d == 0.0 <==> e == 0.0
  {
    var q := e / d;
    assert q * d == e;
    assert (q - 1.0) * d == e - d;
    SignOfProduct(q - 1.0, d);
  }

  /** More grammar findings never raise the accuracy. */
  lemma AccuracyAntitone(e1: nat, e2: nat, words: nat)
    requires e1 <= e2
    ensures Accuracy(e2, words) <= Accuracy(e1, words)
  {
    var d := Max1(words) as real;
    assert e1 as real / d <= e2 as real / d by {
      assert e1 as real / d * d == e1 as real;
      assert e2 as real / d * d == e2 as real;
    }
  }

  /** The same findings over more words never lower the accuracy. */
  lemma AccuracyMonotoneInWords(errors: nat, w1: nat, w2: nat)
    requires w1 <= w2
    ensures Accuracy(errors, w1) <= Accuracy(errors, w2)
  {
    var d1, d2 := Max1(w1) as real, Max1(w2) as real;
    var e := errors as real;
    assert e / d2 <= e / d1 by {
      assert e / d2 * d2 == e && e / d1 * d1 == e;
      assert e / d2 * d1 <= e / d2 * d2;
    }
  }

  /** The four texts the suggestion label can show. */
  datatype Suggestion = KeepPracticing | TryMedium | TryHard | ConsiderMedium

  function Message(s: Suggestion): string {
    match s
    case KeepPracticing => "Keep practicing to improve your skills!"
    case TryMedium => "Good job! Try Medium level."
    case TryHard => "Great! Try Hard level."
    case ConsiderMedium => "Consider practicing Medium level."
  }

  /** The outcome of the level policy: the level to continue at, and the suggestion shown. */
  datatype Advice = Advice(next: Level, suggestion: Suggestion)

  /** Easy, Medium and Hard in order of difficulty. */
  function Rank(l: Level): int {
    match l
    case Easy => 0
    case Medium => 1
    case Hard => 2
  }

  /**
    The level policy (typingspeed.py:110-119): Easy moves up on accuracy
    above 90 and speed above 30, Medium moves up on accuracy above 90 and
    speed above 35, Hard moves down on accuracy below 70; otherwise the level
    stays and the default encouragement is shown.
   */
  function Suggest(level: Level, accuracy: real, speed: real): (a: Advice)
    ensures level == Easy ==> (a.next == Medium <==> accuracy > 90.0 && speed > 30.0)
    ensures level == Medium ==> (a.next == Hard <==> accuracy > 90.0 && speed > 35.0)
    ensures level == Hard ==> (a.next == Medium <==> accuracy < 70.0)
    ensures a.next == level <==> a.suggestion == KeepPracticing
    ensures a.suggestion == TryMedium <==> level == Easy && a.next == Medium
    ensures a.suggestion == TryHard <==> level == Medium && a.next == Hard
    ensures a.suggestion == ConsiderMedium <==> level == Hard && a.next == Medium
    ensures -1 <= Rank(a.next) - Rank(level) <= 1
    ensures Rank(a.next) < Rank(level) ==> level == Hard
  {
    if level == Easy && accuracy > 90.0 && speed > 30.0 then Advice(Medium, TryMedium)
    else if level == Medium && accuracy > 90.0 && speed > 35.0 then Advice(Hard, TryHard)
    else if level == Hard && accuracy < 70.0 then Advice(Medium, ConsiderMedium)
    else Advice(level, KeepPracticing)
  }

  /** Better accuracy and speed never lead to an easier next level. */
  lemma SuggestMonotone(level: Level, a1: real, s1: real, a2: real, s2: real)
    requires a1 <= a2 && s1 <= s2
    ensures Rank(Suggest(level, a1, s1).next) <= Rank(Suggest(level, a2, s2).next)
  {
  }

  function Min(a: nat, b: nat): nat {
    if a <= b then a else b
  }

  /** What one `show_results` computes from the typed buffer, the timer and the grammar findings. */
  datatype Score = Score(
    timeTaken: real,
    words: nat,
    speed: real,
    errors: nat,
    accuracy: real,
    shown: seq<string>,
    advice: Advice)

  /**
    `show_results` without its widgets: the time is the last elapsed reading,
    the findings are what the grammar checker reports on the stripped buffer,
    and at most the first five findings are listed.
   */
  function ComputeScore(buffer: string, elapsed: real, findings: seq<string>, level: Level): (s: Score)
    ensures s.timeTaken == elapsed && s.words == WordCount(buffer) && s.errors == |findings|
    ensures s.speed == Speed(s.words, elapsed) && s.accuracy == Accuracy(s.errors, s.words)
    ensures 0.0 <= s.accuracy <= 100.0 && (s.accuracy == 100.0 <==> findings == [])
    ensures |s.shown| == Min(5, |findings|) && s.shown == findings[..|s.shown|]
    ensures -1 <= Rank(s.advice.next) - Rank(level) <= 1
    ensures s.advice == Suggest(level, s.accuracy, s.speed)
  {
    var words := WordCount(buffer);
    var speed := Speed(words, elapsed);
    var errors := |findings|;
    var accuracy := Accuracy(errors, words);
    Score(elapsed, words, speed, errors, accuracy, findings[..Min(5, errors)], Suggest(level, accuracy, speed))
  }

  /** Easy at accuracy 95 and speed 40 advances to Medium with "Good job! Try Medium level.". */
  lemma EasyAdvances()
    ensures Suggest(Easy, 95.0, 40.0) == Advice(Medium, TryMedium)
    ensures Message(TryMedium) == "Good job! Try Medium level."
  {
  }

  /** Hard at accuracy 65 falls back to Medium, whatever the speed. */
  lemma HardFallsBack(speed: real)
    ensures Suggest(Hard, 65.0, speed) == Advice(Medium, ConsiderMedium)
  {
  }

  /** No grammar findings over ten words is full accuracy. */
  lemma NoFindingsFullAccuracy()
    ensures Accuracy(0, 10) == 100.0
  {
  }
}
