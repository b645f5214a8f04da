# Typing speed tester, modelled in Dafny

`typingspeed.py` is a Tkinter typing-speed tester. The user picks a level (Easy, Medium or Hard) and is shown a paragraph of that level. The timer starts at the first space typed. On each key release the typed words that differ from the target are marked. When the typed text matches the target, or when the user submits, the speed, the accuracy and the grammar feedback are shown, and the level may move one step.

This project models the deterministic core of that program:

- `text.dfy` (module `Text`): the Python string operations the program relies on, namely `lower()`, `strip()`, `split()` with no separator and `' '.join(...)`. It also holds `normalize` (typingspeed.py:23), which decides when an attempt is complete. Whitespace is Python's `str.isspace` set.
- `catalog.dfy` (module `Catalog`): `load_paragraphs_by_level` (typingspeed.py:4-17).
  - The file is `Some(lines)`, or `None` when it does not exist.
  - The method keeps the source's two loops: one over the lines, and one over the three keys.
  - It is proved against `ParseCatalog`, which is a function of the lines.
- `highlight.dfy` (module `Highlight`): the mark computation of `highlight_errors` (typingspeed.py:89-97).
  - The method keeps the source's loop.
  - It is proved against `MismatchSpans`, a pure function from the typed tokens and the target tokens to the `(start, end)` character spans.
- `scoring.dfy` (module `Scoring`): the arithmetic and the level policy of `show_results` (typingspeed.py:99-119). Speed and accuracy are exact `real`s.
- `session.dfy` (module `Session`): the class `TypingSpeedTester`.
  - Its fields are the catalog, the level, the target text, the input box contents, the timer, the marks and the last score.
  - Its methods are `__init__`, `set_paragraph`, the level selector, `start_timer`, one tick of `update_timer`, `key_events`, `highlight_errors`, `submit` and `show_results`.
  - Each reading of the clock `time.time()` is a `real` parameter. `start_timer` reads it twice: `now` for the start time and `tick` for the first timer tick.
  - The grammar checker `tool.check` is a parameter `check: string -> seq<string>`, which gives the findings for a text.
  - `random.choice` is modelled as "some element of the list" (`:|`).
- `wrappers.dfy`: the `Option` type.

Where the code and its usual description differ, the model follows the code:

- The speed is 0 whenever the measured time is 0 (`if time_taken else 0`).
- `submit` and a completing key press score the last `elapsed` the timer recorded. They do not read the clock again.
- `set_paragraph` resets `elapsed`, but it leaves the timer's running flag and its start time alone.
- Marks compare raw tokens, so case matters. Completion compares normalized text, so case does not matter. Typing "the Quick brown fox" for "The quick brown fox" therefore marks two words.

## Model

| member | source | states |
|---|---|---|
| Text.Lower | typingspeed.py:23 | `lower()` keeps the length of the text |
| Text.LowerShape | typingspeed.py:23 | after `lower()` no upper-case letter is left, and whitespace stays exactly where it was |
| Text.LowerOfLower | typingspeed.py:23 | lower-case text is its own `lower()` |
| Text.TrimLeftSuffix | typingspeed.py:23 | `lstrip()` keeps a suffix that does not start with whitespace, and drops only whitespace |
| Text.TrimRightPrefix | typingspeed.py:23 | `rstrip()` keeps a prefix that does not end with whitespace, and drops only whitespace |
| Text.Strip | typingspeed.py:9 | the result of `strip()` neither begins nor ends with whitespace |
| Text.StripTrimmed | typingspeed.py:9 | `strip()` leaves text without whitespace at either end unchanged |
| Text.StripSurrounds | typingspeed.py:9 | `strip()` removes whitespace only, and only at the two ends |
| Text.WordLengthRun | typingspeed.py:23 | the first run `split()` cuts is free of whitespace and ends at whitespace or at the end of the text |
| Text.SplitWords | typingspeed.py:23 | every token of `split()` is non-empty and free of whitespace |
| Text.SplitKeepsLower | typingspeed.py:23 | the tokens of lower-case text are lower-case |
| Text.JoinOfWords | typingspeed.py:23 | joining tokens with single spaces gives text with no whitespace at either end and no two whitespace characters in a row; it starts with the first token and is lower-case when the tokens are |
| Text.SplitJoin | typingspeed.py:23 | `split()` gives back exactly the tokens that `' '.join` joined |
| Text.CollapsedIsTrimmed | typingspeed.py:23 | collapsed text has no whitespace at either end |
| Text.NormalizeShape | typingspeed.py:23 | `normalize` gives lower-case text with single spaces between tokens and no whitespace at either end |
| Text.NormalizeIdempotent | typingspeed.py:23 | normalizing twice gives the same text as normalizing once |
| Text.NormalizeEqual | typingspeed.py:23 | two texts normalize alike exactly when their lower-cased texts have the same tokens |
| Catalog.Catalog.Append | typingspeed.py:12 | appending to one level's list adds the paragraph at its end and leaves the other levels unchanged |
| Catalog.FallbackCatalog | typingspeed.py:13-16 | a missing file gives every level exactly one paragraph |
| Catalog.LoadParagraphsByLevel | typingspeed.py:4-17 | an existing file gives `ParseCatalog` of its lines; a missing file gives the built-in catalog |
| Catalog.ReadLine | typingspeed.py:9-12 | one pass of the inner loop adds the stripped line's entry to each key whose tag it starts with |
| Catalog.ParseCatalogSnoc | typingspeed.py:8-12 | reading one more line takes the catalog of the earlier lines to the catalog with that line added |
| Catalog.ParagraphsAppend | typingspeed.py:8-12 | the paragraphs of two stretches of the file are those of the first stretch, then those of the second |
| Catalog.ParagraphsAt | typingspeed.py:8-12 | line `i` contributes exactly its own entry, `line[len(key)+1:].strip()`, or nothing, between the paragraphs of earlier and later lines, so file order is kept |
| Catalog.UnlabelledIgnored | typingspeed.py:10-12 | a line that starts with no tag changes no level's list |
| Catalog.TagsExclusive | typingspeed.py:10-11 | no line starts with two different tags |
| Catalog.ParagraphsBound | typingspeed.py:8-12 | each line lands in at most one list, so the three lists together hold no more paragraphs than the file has lines |
| Highlight.HighlightErrors | typingspeed.py:91-96 | the loop marks exactly `MismatchSpans` of the stripped, split buffer against the stripped, split target |
| Highlight.WidthPrefix | typingspeed.py:94-95 | each token adds its length plus one separator to the offset of the next token |
| Highlight.WidthMonotone | typingspeed.py:94-95 | later tokens start no earlier than earlier ones |
| Highlight.WordSpanLength | typingspeed.py:94-95 | the span of token `i` is `len(typed[i]) + 1` characters long |
| Highlight.SpansUpToOrdered | typingspeed.py:92-96 | the marks are non-empty and come in increasing order without overlapping |
| Highlight.MismatchSpansShape | typingspeed.py:92-96 | every mark is the span of a flagged token and is as long as that token plus its separator, and the marks are ordered and disjoint |
| Highlight.MarkedIffFlagged | typingspeed.py:93 | token `i` is marked exactly when `i >= len(ref)` or `typed[i] != ref[i]` |
| Highlight.SpansUpToEmpty | typingspeed.py:92-96 | nothing is marked exactly when no token is flagged |
| Highlight.NoMarksIffPrefix | typingspeed.py:92-96 | nothing is marked exactly when the typed tokens are, word for word, a prefix of the target's |
| Highlight.SpanCoversWord | typingspeed.py:94-95 | when the buffer is its tokens joined by single spaces, the span of token `i` starts where that token starts in the buffer |
| Highlight.CaseSensitiveMarks | typingspeed.py:91-93 | "the Quick brown fox" typed for "The quick brown fox" marks the first two words, although the lower-cased tokens agree |
| Scoring.WordCountOfJoin | typingspeed.py:100-101 | text made of tokens joined by single spaces has as many words as tokens |
| Scoring.Speed | typingspeed.py:102 | the speed is 0 when no time was measured, and never negative for a positive time |
| Scoring.SpeedRate | typingspeed.py:102 | for a non-zero time the speed is `words * 60 / elapsed` |
| Scoring.Accuracy | typingspeed.py:104 | the accuracy lies in [0, 100]; it is 100 exactly when there are no errors, and 0 exactly when the errors reach `max(1, words)` |
| Scoring.AccuracyAntitone | typingspeed.py:104 | more errors never raise the accuracy |
| Scoring.AccuracyMonotoneInWords | typingspeed.py:104 | the same errors over more words never lower the accuracy |
| Scoring.Suggest | typingspeed.py:110-119 | Easy moves to Medium iff accuracy > 90 and speed > 30; Medium moves to Hard iff accuracy > 90 and speed > 35; Hard moves to Medium iff accuracy < 70; otherwise the level stays, and "keep practicing" is shown exactly when it stays; each suggestion text belongs to its move; the level moves at most one step, and only Hard moves down |
| Scoring.SuggestMonotone | typingspeed.py:110-119 | better accuracy and speed never lead to an easier next level |
| Scoring.ComputeScore | typingspeed.py:100-108 | the score uses the last elapsed time, the word count of the stripped buffer and the number of findings; the accuracy is 100 exactly when there are no findings; at most the first five findings are listed; the advice is the level policy applied to this speed and accuracy |
| Scoring.EasyAdvances | typingspeed.py:110-113 | Easy at accuracy 95 and speed 40 moves to Medium with "Good job! Try Medium level." |
| Scoring.HardFallsBack | typingspeed.py:116-118 | Hard at accuracy 65 moves to Medium, whatever the speed |
| Scoring.NoFindingsFullAccuracy | typingspeed.py:104 | no grammar findings over ten words gives accuracy 100 |
| Session.TypingSpeedTester.constructor | typingspeed.py:26-31 | the catalog is loaded, the level is Easy, the timer is stopped with no start time, and a paragraph of Easy is offered |
| Session.TypingSpeedTester.SetParagraph | typingspeed.py:55-63 | the text is a member of the current level's list, or "No paragraph available." when the list is empty; the input, the marks and the results are cleared and `elapsed` is 0 |
| Session.TypingSpeedTester.ChooseLevel | typingspeed.py:39 | choosing a level sets it and offers one of its paragraphs |
| Session.TypingSpeedTester.StartTimer | typingspeed.py:65-74 | only a stopped timer records `now` as its start, and its first tick at the second clock reading `tick` sets the elapsed time to `tick - now`; a running timer keeps its start time and elapsed time; afterwards the timer runs |
| Session.TypingSpeedTester.UpdateTimer | typingspeed.py:72-74 | a running timer's elapsed time becomes `now` minus its start; a stopped timer's is unchanged |
| Session.TypingSpeedTester.KeyEvents | typingspeed.py:78-84 | a space starts a stopped timer at clock readings `now` and `tick`; the marks are recomputed; the timer stops and the results are shown exactly when the normalized buffer equals the normalized target; otherwise the results and the level are unchanged |
| Session.TypingSpeedTester.HighlightErrors | typingspeed.py:89-97 | the marks become `MismatchSpans` of the current input against the target |
| Session.TypingSpeedTester.FinishIfComplete | typingspeed.py:81-84 | a complete attempt stops the timer and shows the results; an incomplete one changes nothing |
| Session.TypingSpeedTester.Submit | typingspeed.py:87 | submitting always stops the timer and shows the results of the current input |
| Session.CaseInsensitiveCompletion | typingspeed.py:81 | "the Quick brown fox" completes "The quick brown fox": completion compares normalized, lower-cased text |
| Session.TypingSpeedTester.ShowResults | typingspeed.py:99-119 | the result is `ComputeScore` of the input, the last elapsed time and the checker's findings on the stripped input; the level becomes the advised one |

## Left out

- The Tkinter window is not modelled: widget construction, layout, text tags and colours, and label texts with their `.1f`/`.2f` float formatting (typingspeed.py:33-53, 97, 105-108). The model keeps the values the labels would show: the spans, the `Score` and the `Suggestion`.
- `winsound.Beep` is left out because it is an audio side effect.
- `pyttsx3`, `speak` and the dictation button are left out, because they are a foreign speech engine on a background thread.
- `language_tool_python` is a foreign call, so it is the parameter `check`. The source never imports that module (typingspeed.py:1); the model does not capture that failure.
- The self-rescheduling of `update_timer` through `root.after` is left out. `UpdateTimer` models one tick at clock reading `now`.
- `time.time()` is replaced by one parameter per reading.
- `random.choice` is modelled as an arbitrary element of the list. Its distribution is not modelled.
- Opening the file and decoding it as UTF-8 are left out. The file is given as its lines, or as `None` when it is not found. Other I/O errors are not modelled.
- Speed and accuracy are exact reals, not IEEE doubles.
- Text.Lower: lower-cases ASCII `A`-`Z` only. Python's full Unicode case mapping is not modelled.
- Highlight.HighlightErrors: spans are character offsets counted as if the buffer held its tokens separated by single spaces, exactly as the source computes them. `SpanCoversWord` shows the spans land on the words when that holds. Nothing is proved about buffers with other spacing.
- The trailing newline that Tk's `get("1.0", END)` appends is not modelled. The buffer is the typed text, and every use strips or splits it, so the newline makes no difference.
