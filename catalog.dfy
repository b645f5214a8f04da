/**
  The paragraph catalog: `load_paragraphs_by_level` (typingspeed.py:4-17).
  The file is a sequence of lines, or absent; each line, stripped, that starts
  with a level's label and a colon gives that level one paragraph, in file order.
 */
module Catalog {
  import opened Wrappers
  import opened Text

  datatype Level = Easy | Medium | Hard

  /** The catalog's keys, in the order the source's dictionary holds them. */
  const Levels: seq<Level> := [Easy, Medium, Hard]


  function Name(l: Level): string {
    match l
    case Easy => "Easy"
    case Medium => "Medium"
    case Hard => "Hard"
  }

  /** The prefix `f"{key}:"` that marks a line of level `l`. */
  function Tag(l: Level): string {
    Name(l) + ":"
  }

  predicate Labelled(line: string, l: Level) {
    StartsWith(line, Tag(l))
  }

  /** The paragraph a stripped line of level `l` holds: what follows the tag, stripped. */
  function Entry(line: string, l: Level): (p: string)
    requires Labelled(line, l)
  {
    Strip(line[|Name(l)| + 1..])
  }

  /** What one raw line of the file adds to level `l`'s list. */
  function Contribution(line: string, l: Level): seq<string> {
    var s := Strip(line);
    if Labelled(s, l) then [Entry(s, l)] else []
  }

  /** The paragraphs of level `l` in `lines`, in file order. */
  function Paragraphs(lines: seq<string>, l: Level): seq<string> {
    if lines == [] then []
    else Paragraphs(lines[..|lines| - 1], l) + Contribution(lines[|lines| - 1], l)
  }

  /**
    The source's dictionary `{"Easy": [...], "Medium": [...], "Hard": [...]}`:
    its keys never change, so it is a record with one list per level.
   */
  datatype Catalog = Catalog(easy: seq<string>, medium: seq<string>, hard: seq<string>) {

    /** `levels[l]`. */
    function Get(l: Level): seq<string> {
      match l
      case Easy => easy
      case Medium => medium
      case Hard => hard
    }

    /** `levels[l].append(p)`: level `l` gains `p` at its end, the other lists stay. */
    function Append(l: Level, p: string): (c: Catalog)
      ensures c.Get(l) == Get(l) + [p]
      ensures forall l' :: l' != l ==> c.Get(l') == Get(l')
    {
      match l
      case Easy => this.(easy := easy + [p])
      case Medium => this.(medium := medium + [p])
      case Hard => this.(hard := hard + [p])
    }
  }

  /** The catalog an existing file gives: each level's paragraphs in file order. */
  function ParseCatalog(lines: seq<string>): Catalog {
    Catalog(Paragraphs(lines, Easy), Paragraphs(lines, Medium), Paragraphs(lines, Hard))
  }

  /** The built-in paragraphs used when the file is missing. */
  const EasySample: string := "The sun is bright today."
  const MediumSample: string := "The quick brown fox jumps over the lazy dog."
  const HardSample: string := "Artificial intelligence is transforming technology."

  /** The catalog a missing file gives (typingspeed.py:13-16): exactly one paragraph per level. */
  function FallbackCatalog(): (c: Catalog)
    ensures forall l :: |c.Get(l)| == 1
  {
    Catalog([EasySample], [MediumSample], [HardSample])
  }

  /**
    `load_paragraphs_by_level`: start from three empty lists; for each line,
    strip it and append its entry to every level whose tag it starts with.
    A missing file (`None`) replaces the three lists by the built-in ones.
   */
  method LoadParagraphsByLevel(file: Option<seq<string>>) returns (levels: Catalog)
    ensures file.Some? ==> levels == ParseCatalog(file.value)
    ensures file.None? ==> levels == FallbackCatalog()
  {
    levels := Catalog([], [], []);
    if file.None? {
      levels := levels.(easy := [EasySample]);
      levels := levels.(medium := [MediumSample]);
      levels := levels.(hard := [HardSample]);
      return;
    }
    var lines := file.value;
    for n := 0 to |lines|
      invariant levels == ParseCatalog(lines[..n])
    {
      levels := ReadLine(levels, lines[n]);
      ParseCatalogSnoc(lines, n);
    }
    assert lines[..|lines|] == lines;
  }

  /** One pass of the loop body: `line`, stripped, is offered to each key in turn. */
  method ReadLine(before: Catalog, raw: string) returns (levels: Catalog)
    ensures levels == AddLine(before, raw, |Levels|)
  {
    levels := before;
    var line := Strip(raw);
    for k := 0 to |Levels|
      invariant levels == AddLine(before, raw, k)
    {
      var key := Levels[k];
      if Labelled(line, key) {
        levels := levels.Append(key, Entry(line, key));
      }
    }
  }

  /** The catalog `c` once the first `k` keys have taken what `line` gives them. */
  function AddLine(c: Catalog, line: string, k: nat): Catalog
    requires k <= |Levels|
  {
    if k == 0 then c
    else
      var prior, key, s := AddLine(c, line, k - 1), Levels[k - 1], Strip(line);
      if Labelled(s, key) then prior.Append(key, Entry(s, key)) else prior
  }

  /** Reading line `n` takes the catalog of the lines before it to the catalog of one more line. */
  lemma ParseCatalogSnoc(lines: seq<string>, n: nat)
    requires n < |lines|
    ensures ParseCatalog(lines[..n + 1]) == AddLine(ParseCatalog(lines[..n]), lines[n], |Levels|)
  {
    var c, line := ParseCatalog(lines[..n]), lines[n];
    ParagraphsSnoc(lines, n, Easy);
    ParagraphsSnoc(lines, n, Medium);
    ParagraphsSnoc(lines, n, Hard);
    var e, m, h := Contribution(line, Easy), Contribution(line, Medium), Contribution(line, Hard);
    var c1 := AddLine(c, line, 1);
    var c2 := AddLine(c, line, 2);
    assert c1 == c.(easy := c.easy + e) by {
      assert AddLine(c, line, 0) == c;
      assert Levels[0] == Easy;
      assert c.easy + [] == c.easy;
    }
    assert c2 == c1.(medium := c.medium + m) by {
      assert Levels[1] == Medium;
      assert c.medium + [] == c.medium;
    }
    assert AddLine(c, line, 3) == c2.(hard := c.hard + h) by {
      assert Levels[2] == Hard;
      assert c.hard + [] == c.hard;
    }
  }

  /** One more line read: the paragraphs so far, then that line's contribution. */
  lemma ParagraphsSnoc(lines: seq<string>, n: nat, l: Level)
    requires n < |lines|
    ensures Paragraphs(lines[..n + 1], l) == Paragraphs(lines[..n], l) + Contribution(lines[n], l)
  {
    assert lines[..n + 1][..n] == lines[..n];
  }

  /** A file of one line holds that line's contribution. */
  lemma ParagraphsOfLine(line: string, l: Level)
    ensures Paragraphs([line], l) == Contribution(line, l)
  {
    assert [line][..0] == [];
  }

  /** At most one tag fits a line: "Easy:", "Medium:" and "Hard:" differ in their first letter. */
  lemma TagsExclusive(line: string, l1: Level, l2: Level)
    requires Labelled(line, l1) && Labelled(line, l2)
    ensures l1 == l2
  {
    assert line[0] == Tag(l1)[0] == Tag(l2)[0];
  }

  /** Reading two pieces of a file gives the first piece's paragraphs, then the second's. */
  lemma {:induction false} ParagraphsAppend(a: seq<string>, b: seq<string>, l: Level)
    ensures Paragraphs(a + b, l) == Paragraphs(a, l) + Paragraphs(b, l)
    decreases |b|
  {
    if b == [] {
      assert a + b == a;
    } else {
      var b' := b[..|b| - 1];
      assert (a + b)[..|a + b| - 1] == a + b';
      assert (a + b)[|a + b| - 1] == b[|b| - 1];
      ParagraphsAppend(a, b', l);
    }
  }

  /**
    Line `i` contributes exactly its own entry (or nothing), between the
    paragraphs of the lines before it and those after it.
   */
  lemma {:induction false} ParagraphsAt(lines: seq<string>, i: nat, l: Level)
    requires i < |lines|
    ensures Paragraphs(lines, l)
         == Paragraphs(lines[..i], l) + Contribution(lines[i], l) + Paragraphs(lines[i + 1..], l)
  {
    assert lines == lines[..i] + [lines[i]] + lines[i + 1..];
    ParagraphsAppend(lines[..i] + [lines[i]], lines[i + 1..], l);
    ParagraphsAppend(lines[..i], [lines[i]], l);
    ParagraphsOfLine(lines[i], l);
  }

  /** A line that starts with no tag adds nothing to any level. */
  lemma {:induction false} UnlabelledIgnored(a: seq<string>, line: string, b: seq<string>, l: Level)
    requires forall l': Level :: !Labelled(Strip(line), l')
    ensures Paragraphs(a + [line] + b, l) == Paragraphs(a + b, l)
  {
    ParagraphsAppend(a + [line], b, l);
    ParagraphsAppend(a, [line], l);
    ParagraphsAppend(a, b, l);
    ParagraphsOfLine(line, l);
  }

  /** Each line lands in at most one list, so the catalog holds no more paragraphs than the file has lines. */
  lemma {:induction false} ParagraphsBound(lines: seq<string>)
    ensures |Paragraphs(lines, Easy)| + |Paragraphs(lines, Medium)| + |Paragraphs(lines, Hard)| <= |lines|
  {
    if lines != [] {
      var s := Strip(lines[|lines| - 1]);
      ParagraphsBound(lines[..|lines| - 1]);
      if Labelled(s, Easy) && Labelled(s, Medium) { TagsExclusive(s, Easy, Medium); }
      if Labelled(s, Easy) && Labelled(s, Hard) { TagsExclusive(s, Easy, Hard); }
      if Labelled(s, Medium) && Labelled(s, Hard) { TagsExclusive(s, Medium, Hard); }
    }
  }
}
