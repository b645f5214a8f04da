/**
  The session state of `TypingSpeedTester` (typingspeed.py:25-119) without
  its widgets: the catalog, the current level, the target paragraph, the
  typed buffer, the timer, the marked mistakes and the last score.
  Each reading of the clock (`time.time()`) is a parameter, the grammar checker is a
  function from text to its findings, and the typed buffer is handed in by
  each key event.
 */
module Session {
  import opened Wrappers
  import opened Text
  import opened Catalog
  import opened Highlight
  import opened Scoring

  /** The text shown when the current level has no paragraph. */
  const Placeholder: string := "No paragraph available."

  /** `text` is a paragraph `set_paragraph` may pick for `level`: one of its list, or the placeholder if there is none. */
  predicate Offered(levels: Catalog, level: Level, text: string) {
    if levels.Get(level) == [] then text == Placeholder else text in levels.Get(level)
  }

  /** The attempt is complete: the buffer and the target agree once normalized (typingspeed.py:81). */
  predicate Complete(buffer: string, text: string) {
    Normalize(buffer) == Normalize(text)
  }

  class TypingSpeedTester {
    var levels: Catalog
    var level: Level
    var text: string
    /** The contents of the input box, as of the last key event. */
    var input: string
    var startTime: Option<real>
    var timerRunning: bool
    var elapsed: real
    /** The spans currently tagged as mistakes in the input box. */
    var mistakes: seq<Span>
    /** The last results shown, or `None` once cleared. */
    var result: Option<Score>

    /** A running timer has a start time. */
    predicate Valid()
      reads this
    {
      timerRunning ==> startTime.Some?
    }

    /**
      `__init__`: load the catalog, start at Easy with the timer stopped and
      unset, and pick a first paragraph.
     */
    constructor (file: Option<seq<string>>)
      ensures Valid()
      ensures file.Some? ==> levels == ParseCatalog(file.value)
      ensures file.None? ==> levels == FallbackCatalog()
      ensures level == Easy && startTime == None && !timerRunning
      ensures Offered(levels, level, text)
      ensures input == [] && mistakes == [] && result == None && elapsed == 0.0
    {
      var loaded := LoadParagraphsByLevel(file);
      levels := loaded;
      level := Easy;
      startTime, timerRunning := None, false;
      new;
      SetParagraph();
    }

    /**
      `set_paragraph`: pick some paragraph of the current level (or the
      placeholder), clear the input box, the marks and the results, and reset
      the elapsed time. The timer's running flag and start time are left alone.
     */
    method SetParagraph()
      modifies this`text, this`input, this`mistakes, this`result, this`elapsed
      ensures Offered(levels, level, text)
      ensures input == [] && mistakes == [] && result == None && elapsed == 0.0
    {
      var levelTexts := levels.Get(level);
      if levelTexts != [] {
        assert levelTexts[0] in levelTexts;
        var t :| t in levelTexts;
        text := t;
      } else {
        text := Placeholder;
      }
      input := [];
      mistakes := [];
      result := None;
      elapsed := 0.0;
    }

    /** Choosing a level with the level selector: the level changes and a paragraph of it is picked. */
    method ChooseLevel(l: Level)
      modifies this`level, this`text, this`input, this`mistakes, this`result, this`elapsed
      ensures level == l && Offered(levels, l, text)
      ensures input == [] && mistakes == [] && result == None && elapsed == 0.0
    {
      level := l;
      SetParagraph();
    }

    /**
      `start_timer`: only a stopped timer starts; it records the clock reading
      `now` as its start, and the first tick reads the clock again, as `tick`.
      A running timer is left as it is.
     */
    method StartTimer(now: real, tick: real)
      requires Valid()
      modifies this`startTime, this`timerRunning, this`elapsed
      ensures Valid() && timerRunning
      ensures old(timerRunning) ==> startTime == old(startTime) && elapsed == old(elapsed)
      ensures !old(timerRunning) ==> startTime == Some(now) && elapsed == tick - now
    {
      if !timerRunning {
        startTime := Some(now);
        timerRunning := true;
        UpdateTimer(tick);
      }
    }

    /** One tick of `update_timer` at clock reading `now`: a running timer's elapsed time is `now` minus its start. */
    method UpdateTimer(now: real)
      requires Valid()
      modifies this`elapsed
      ensures timerRunning ==> elapsed == now - startTime.value
      ensures !timerRunning ==> elapsed == old(elapsed)
    {
      if timerRunning {
        elapsed := now - startTime.value;
      }
    }

    /**
      `key_events`: a space starts the timer (at clock readings `now` and
      `tick`, as in `StartTimer`), the mistakes are marked afresh,
      and a buffer that matches the target once normalized stops the timer
      and shows the results.
     */
    method KeyEvents(isSpace: bool, buffer: string, now: real, tick: real, check: string -> seq<string>)
      requires Valid()
      modifies this`input, this`startTime, this`timerRunning, this`elapsed, this`mistakes, this`result, this`level
      ensures Valid() && input == buffer
      ensures mistakes == MismatchSpans(Tokens(input), Tokens(text))
      ensures isSpace && !old(timerRunning) ==> startTime == Some(now) && elapsed == tick - now
      ensures !(isSpace && !old(timerRunning)) ==> startTime == old(startTime) && elapsed == old(elapsed)
      ensures timerRunning <==> !Complete(input, text) && (old(timerRunning) || isSpace)
      ensures Complete(input, text) ==>
        result == Some(ComputeScore(input, elapsed, check(Strip(input)), old(level))) && level == result.value.advice.next
      ensures !Complete(input, text) ==> result == old(result) && level == old(level)
    {
      input := buffer;
      if isSpace {
        StartTimer(now, tick);
      }
      HighlightErrors();
      var done := FinishIfComplete(check);
    }

    /** `highlight_errors`: the old marks are dropped and the marks of the current input against the target put in their place. */
    method HighlightErrors()
      modifies this`mistakes
      ensures mistakes == MismatchSpans(Tokens(input), Tokens(text))
    {
      mistakes := Highlight.HighlightErrors(input, text);
    }

    /** The end of `key_events`: a buffer that matches the target stops the timer and shows the results. */
    method FinishIfComplete(check: string -> seq<string>) returns (done: bool)
      requires Valid()
      modifies this`timerRunning, this`result, this`level
      ensures done == Complete(input, text)
      ensures Valid() && (timerRunning <==> old(timerRunning) && !done)
      ensures done ==> result == Some(ComputeScore(input, elapsed, check(Strip(input)), old(level))) && level == result.value.advice.next
      ensures !done ==> result == old(result) && level == old(level)
    {
      done := Complete(input, text);
      if done {
        timerRunning := false;
        ShowResults(check);
      }
    }

    /** `submit` (and Return in the input box): stop the timer and show the results, whatever was typed. */
    method Submit(check: string -> seq<string>)
      requires Valid()
      modifies this`timerRunning, this`result, this`level
      ensures Valid() && !timerRunning
      ensures result == Some(ComputeScore(input, elapsed, check(Strip(input)), old(level)))
      ensures level == result.value.advice.next
    {
      timerRunning := false;
      ShowResults(check);
    }

    /**
      `show_results`: score the stripped buffer against the last elapsed
      reading and the grammar findings, then move the level as the policy says.
     */
    method ShowResults(check: string -> seq<string>)
      modifies this`result, this`level
      ensures result == Some(ComputeScore(input, elapsed, check(Strip(input)), old(level)))
      ensures level == result.value.advice.next
    {
      var typed := Strip(input);
      var score := ComputeScore(input, elapsed, check(typed), level);
      result := Some(score);
      level := score.advice.next;
    }
  }

  /**
    Completion ignores case: "the Quick brown fox" completes "The quick brown
    fox", although highlighting marks its first two words (`CaseSensitiveMarks`).
   */
  lemma CaseInsensitiveCompletion()
    ensures Complete("the Quick brown fox", "The quick brown fox")
  {
    assert Lower("the Quick brown fox") == Lower("The quick brown fox");
  }
}
