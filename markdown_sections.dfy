/**
 * The heading-based Markdown splitter that docs/discogs-api/scrape_discogs_docs.py
 * (`split_markdown_file`) and docs/discogs-api/split_existing_docs.py (the
 * first loop of `split_markdown_by_h1`) both run, and their shared
 * `sanitize_filename`. The two scripts hold the same loop and differ in one
 * test only: the first ignores pre-heading lines that start with "Source:",
 * the second keeps them; `dropSource` says which. Python's `\s`, `\w`,
 * `strip()` and `lower()` are taken on ASCII.
 *
 * The loop is modelled as written (`Step`, `Fold`, `SplitLines`), and checked
 * against an independent reference, `Sections`, that describes the result by
 * blocks: the lines before the first heading, then each heading with the
 * non-heading lines that follow it.
 */
module MarkdownSections {
  import opened Text

  /** A `(title, content)` pair of the scripts' `sections` list. */
  datatype Section = Section(title: string, content: string)

  /** An h1 line: it starts with "# " (which already rules out "##"). */
  predicate IsHeading(line: string) {
    StartsWith(line, "# ")
  }

  /** The title cleanup: strip, then drop a trailing run of whitespace followed by "__". */
  function CleanTitle(rest: string): string {
    var s := StripSpace(rest);
    if |s| >= 3 && s[|s| - 2..] == "__" && IsSpace(s[|s| - 3]) then TrimEnd(s[..|s| - 2], IsSpace) else s
  }

  /**
   * The cleaned title is the stripped text, or that text less a final "__"
   * and the whitespace run before it; it is empty only when the text is blank,
   * and it neither starts nor ends with whitespace.
   */
  lemma CleanTitleSpec(rest: string)
    ensures var s, t := StripSpace(rest), CleanTitle(rest);
            && t <= s
            && (t == "" <==> s == "")
            && (t != "" ==> !IsSpace(t[0]) && !IsSpace(t[|t| - 1]))
            && (t != s ==> |t| + 3 <= |s| && s[|s| - 2..] == "__" && IsSpace(s[|t|])
                           && forall i :: |t| <= i < |s| - 2 ==> IsSpace(s[i]))
  {
    var s := StripSpace(rest);
    StripSpec(rest, IsSpace);
    if |s| >= 3 && s[|s| - 2..] == "__" && IsSpace(s[|s| - 3]) {
      var t := TrimEnd(s[..|s| - 2], IsSpace);
      TrimEndSpec(s[..|s| - 2], IsSpace);
      assert s[..|s| - 2][0] == s[0];
      assert forall i :: |t| <= i < |s| - 2 ==> IsSpace(s[i]) by {
        forall i | |t| <= i < |s| - 2 ensures IsSpace(s[i]) {
          assert s[i] == s[..|s| - 2][i];
        }
      }
    }
  }

  /** Two titles as the docs write them. */
  lemma CleanTitleExamples()
    ensures CleanTitle(" Database __") == "Database"
    ensures CleanTitle("Rate Limiting") == "Rate Limiting"
  {
    assert " Database __"[1..] == "Database __";
    assert TrimStart(" Database __", IsSpace) == TrimStart("Database __", IsSpace);
    assert TrimStart(" Database __", IsSpace) == "Database __";
    assert TrimEnd("Database __", IsSpace) == "Database __";
    assert StripSpace(" Database __") == "Database __";
    var s := "Database __";
    assert s[|s| - 2..] == "__" && IsSpace(s[|s| - 3]);
    assert s[..|s| - 2] == "Database ";
    assert "Database "[..8] == "Database";
    assert TrimEnd("Database ", IsSpace) == "Database";
    assert CleanTitle(" Database __") == "Database";
    assert TrimStart("Rate Limiting", IsSpace) == "Rate Limiting";
    assert TrimEnd("Rate Limiting", IsSpace) == "Rate Limiting";
    assert StripSpace("Rate Limiting") == "Rate Limiting";
  }

  /** The title of a heading line. */
  function HeadingTitle(line: string): string
    requires IsHeading(line)
  {
    CleanTitle(line[2..])
  }

  /** A line before any titled heading that starts an "Introduction" section. */
  predicate OpensIntroduction(line: string, dropSource: bool) {
    !IsBlank(line) && !(dropSource && StartsWith(line, "Source:"))
  }

  const IntroTitle: string := "Introduction"

  /** The two lines an "Introduction" section starts with. */
  const IntroHeader: seq<string> := ["# " + IntroTitle, ""]

  // ---------------------------------------------------------------------
  // The loop as written
  // ---------------------------------------------------------------------

  /**
   * The loop's variables. Python starts `current_section_title` at `None` and
   * may set it to `""` (a heading with nothing after "# "); both are falsy and
   * every test treats them alike, so "" stands for both.
   */
  datatype Accumulator = Accumulator(title: string, lines: seq<string>, sections: seq<Section>)

  /** "Save previous section": append it when a title is open, it has lines and its content is not blank. */
  function Flush(a: Accumulator): seq<Section> {
    if a.title != "" && a.lines != [] && !IsBlank(Join(a.lines, "\n")) then
      a.sections + [Section(a.title, Join(a.lines, "\n"))]
    else a.sections
  }

  /** One turn of the loop. */
  function Step(a: Accumulator, line: string, dropSource: bool): Accumulator {
    if IsHeading(line) then Accumulator(HeadingTitle(line), [line], Flush(a))
    else if a.title != "" then a.(lines := a.lines + [line])
    else if OpensIntroduction(line, dropSource) then Accumulator(IntroTitle, IntroHeader + [line], a.sections)
    else a
  }

  /** The rest of the loop over `lines`, then the final "don't forget the last section". */
  function Fold(a: Accumulator, lines: seq<string>, dropSource: bool): seq<Section>
    decreases |lines|
  {
    if lines == [] then Flush(a) else Fold(Step(a, lines[0], dropSource), lines[1..], dropSource)
  }

  // ---------------------------------------------------------------------
  // The reference: sections by blocks
  // ---------------------------------------------------------------------

  /** The first heading at or after `k`, or `|lines|`. */
  function NextHeading(lines: seq<string>, k: nat): (e: nat)
    requires k <= |lines|
    ensures k <= e <= |lines|
    ensures forall j :: k <= j < e ==> !IsHeading(lines[j])
    ensures e < |lines| ==> IsHeading(lines[e])
    decreases |lines| - k
  {
    if k == |lines| || IsHeading(lines[k]) then k else NextHeading(lines, k + 1)
  }

  /**
   * The heading-free lines of a block that has no titled heading: an
   * "Introduction" holding everything from the first line that opens one, or
   * nothing.
   */
  function Introduction(body: seq<string>, dropSource: bool): (r: seq<Section>)
    ensures |r| <= 1
    decreases |body|
  {
    if body == [] then []
    else if OpensIntroduction(body[0], dropSource) then [Section(IntroTitle, Join(IntroHeader + body, "\n"))]
    else Introduction(body[1..], dropSource)
  }

  /** The sections of lines that start at a heading (or are empty): one block per heading. */
  function HeadedSections(lines: seq<string>, dropSource: bool): seq<Section>
    requires lines == [] || IsHeading(lines[0])
    decreases |lines|
  {
    if lines == [] then []
    else
      var e := NextHeading(lines, 1);
      var title := HeadingTitle(lines[0]);
      (if title != "" then [Section(title, Join(lines[..e], "\n"))] else Introduction(lines[1..e], dropSource))
      + HeadedSections(lines[e..], dropSource)
  }

  /** The sections of a document: its pre-heading block, then its headed blocks. */
  function Sections(lines: seq<string>, dropSource: bool): seq<Section> {
    var e := NextHeading(lines, 0);
    Introduction(lines[..e], dropSource) + HeadedSections(lines[e..], dropSource)
  }

  // ---------------------------------------------------------------------
  // The loop computes the reference
  // ---------------------------------------------------------------------

  /** Some line holds a non-whitespace character. */
  predicate HasText(lines: seq<string>) {
    exists k :: 0 <= k < |lines| && !IsBlank(lines[k])
  }

  lemma HeadingHasText(line: string)
    requires IsHeading(line)
    ensures !IsBlank(line)
  {
    assert line[0] == '#';
  }

  /** A heading past the first line: looking from 1 in `lines` is looking from 0 in `lines[1..]`. */
  lemma {:induction false} NextHeadingShift(lines: seq<string>, k: nat)
    requires 1 <= k <= |lines|
    ensures NextHeading(lines, k) == 1 + NextHeading(lines[1..], k - 1)
    decreases |lines| - k
  {
    if k < |lines| && !IsHeading(lines[k]) {
      assert lines[1..][k - 1] == lines[k];
      NextHeadingShift(lines, k + 1);
    }
  }

  /** Joining lines of which one has text gives non-blank content, so an open section is never dropped. */
  lemma FlushKeeps(a: Accumulator)
    requires a.title != "" && HasText(a.lines)
    ensures Flush(a) == a.sections + [Section(a.title, Join(a.lines, "\n"))]
  {
    var k :| 0 <= k < |a.lines| && !IsBlank(a.lines[k]);
    JoinKeepsText(a.lines, "\n", k);
  }

  /** Regrouping a concatenation of section lists. */
  lemma Regroup(x: seq<Section>, y: seq<Section>, z: seq<Section>)
    ensures (x + y) + z == x + (y + z)
  {
  }

  /** From a state with no section open, the rest of the loop adds the reference sections of what is left. */
  lemma {:induction false} FoldIdle(a: Accumulator, lines: seq<string>, dropSource: bool)
    requires a.title == ""
    ensures Fold(a, lines, dropSource) == a.sections + Sections(lines, dropSource)
    decreases |lines|, 2
  {
    if lines == [] {
      assert Sections(lines, dropSource) == [];
    } else if IsHeading(lines[0]) {
      SectionsAtHeading(lines, dropSource);
      assert Step(a, lines[0], dropSource) == Accumulator(HeadingTitle(lines[0]), [lines[0]], a.sections);
      FoldHeading(a.sections, lines, dropSource);
    } else if OpensIntroduction(lines[0], dropSource) {
      FoldIdleOpens(a, lines, dropSource);
    } else {
      FoldIdleSkips(a, lines, dropSource);
    }
  }

  /** A document that opens at a heading has no pre-heading block. */
  lemma SectionsAtHeading(lines: seq<string>, dropSource: bool)
    requires lines != [] && IsHeading(lines[0])
    ensures Sections(lines, dropSource) == HeadedSections(lines, dropSource)
  {
    assert NextHeading(lines, 0) == 0;
    assert lines[..0] == [] && lines[0..] == lines;
  }

  /** Before the first heading, the reference looks one line further on in the tail. */
  lemma SectionsShift(lines: seq<string>)
    requires lines != [] && !IsHeading(lines[0])
    ensures var e := NextHeading(lines, 0);
            var rest := lines[1..];
            && 1 <= e && NextHeading(rest, 0) == e - 1
            && lines[e..] == rest[e - 1..] && lines[..e][0] == lines[0] && lines[..e][1..] == rest[..e - 1]
  {
    NextHeadingShift(lines, 1);
    var e := NextHeading(lines, 0);
    assert lines[e..] == lines[1..][e - 1..];
    assert lines[..e][1..] == lines[1..][..e - 1];
  }

  /** With no section open, a line that opens nothing is skipped by both the loop and the reference. */
  lemma {:induction false} FoldIdleSkips(a: Accumulator, lines: seq<string>, dropSource: bool)
    requires a.title == "" && lines != [] && !IsHeading(lines[0]) && !OpensIntroduction(lines[0], dropSource)
    ensures Fold(a, lines, dropSource) == a.sections + Sections(lines, dropSource)
    decreases |lines|, 1
  {
    var e := NextHeading(lines, 0);
    var rest := lines[1..];
    SectionsShift(lines);
    assert Introduction(lines[..e], dropSource) == Introduction(rest[..e - 1], dropSource);
    assert Fold(a, lines, dropSource) == Fold(a, rest, dropSource);
    FoldIdle(a, rest, dropSource);
  }

  /** With no section open, a line that opens the "Introduction" starts it with its header. */
  lemma {:induction false} FoldIdleOpens(a: Accumulator, lines: seq<string>, dropSource: bool)
    requires a.title == "" && lines != [] && !IsHeading(lines[0]) && OpensIntroduction(lines[0], dropSource)
    ensures Fold(a, lines, dropSource) == a.sections + Sections(lines, dropSource)
    decreases |lines|, 1
  {
    var e := NextHeading(lines, 0);
    var rest := lines[1..];
    SectionsShift(lines);
    var b := Accumulator(IntroTitle, IntroHeader + [lines[0]], a.sections);
    assert b.lines + rest[..e - 1] == IntroHeader + lines[..e] by {
      assert [lines[0]] + rest[..e - 1] == lines[..e];
    }
    assert !IsBlank(b.lines[2]);
    var intro := [Section(IntroTitle, Join(IntroHeader + lines[..e], "\n"))];
    assert Introduction(lines[..e], dropSource) == intro;
    assert Sections(lines, dropSource) == intro + HeadedSections(rest[e - 1..], dropSource);
    assert Step(a, lines[0], dropSource) == b;
    assert Fold(a, lines, dropSource) == Fold(b, rest, dropSource);
    FoldOpen(b, rest, dropSource);
  }

  /** After a heading line, the rest of the loop adds the reference sections of the lines from that heading on. */
  lemma {:induction false} FoldHeading(sections: seq<Section>, lines: seq<string>, dropSource: bool)
    requires lines != [] && IsHeading(lines[0])
    ensures Fold(Accumulator(HeadingTitle(lines[0]), [lines[0]], sections), lines[1..], dropSource)
            == sections + HeadedSections(lines, dropSource)
    decreases |lines|, 0
  {
    var b := Accumulator(HeadingTitle(lines[0]), [lines[0]], sections);
    var rest := lines[1..];
    var e := NextHeading(lines, 1);
    var e' := NextHeading(rest, 0);
    NextHeadingShift(lines, 1);
    assert lines[e..] == rest[e'..];
    if b.title != "" {
      HeadingHasText(lines[0]);
      assert !IsBlank(b.lines[0]);
      FoldOpen(b, rest, dropSource);
      assert [lines[0]] + rest[..e'] == lines[..e];
    } else {
      FoldIdle(b, rest, dropSource);
      assert lines[1..e] == rest[..e'];
    }
  }

  /**
   * From a state with a section open and holding text, the rest of the loop
   * extends that section up to the next heading, then adds the reference
   * sections of the lines from there.
   */
  lemma {:induction false} FoldOpen(a: Accumulator, lines: seq<string>, dropSource: bool)
    requires a.title != "" && HasText(a.lines)
    ensures var e := NextHeading(lines, 0);
            Fold(a, lines, dropSource)
            == a.sections + ([Section(a.title, Join(a.lines + lines[..e], "\n"))] + HeadedSections(lines[e..], dropSource))
    decreases |lines|, 1
  {
    var e := NextHeading(lines, 0);
    if lines == [] {
      FlushKeeps(a);
      assert a.lines + lines[..e] == a.lines;
      return;
    }
    var line := lines[0];
    var rest := lines[1..];
    if IsHeading(line) {
      FlushKeeps(a);
      assert a.lines + lines[..e] == a.lines && lines[e..] == lines;
      FoldHeading(Flush(a), lines, dropSource);
      Regroup(a.sections, [Section(a.title, Join(a.lines, "\n"))], HeadedSections(lines, dropSource));
    } else {
      var b := a.(lines := a.lines + [line]);
      var k :| 0 <= k < |a.lines| && !IsBlank(a.lines[k]);
      assert b.lines[k] == a.lines[k];
      NextHeadingShift(lines, 1);
      var e' := NextHeading(rest, 0);
      assert b.lines + rest[..e'] == a.lines + lines[..e];
      assert rest[e'..] == lines[e..];
      assert Fold(a, lines, dropSource) == Fold(b, rest, dropSource);
      FoldOpen(b, rest, dropSource);
    }
  }

  /** The loop, run from its initial state, yields exactly the reference sections. */
  lemma FoldIsSections(lines: seq<string>, dropSource: bool)
    ensures Fold(Accumulator("", [], []), lines, dropSource) == Sections(lines, dropSource)
  {
    FoldIdle(Accumulator("", [], []), lines, dropSource);
  }

  /** The splitting loop over the document's lines. */
  method SplitLines(lines: seq<string>, dropSource: bool) returns (sections: seq<Section>)
    ensures sections == Sections(lines, dropSource)
  {
    var title := "";
    var current: seq<string> := [];
    sections := [];
    var i := 0;
    while i < |lines|
      invariant 0 <= i <= |lines|
      invariant Fold(Accumulator(title, current, sections), lines[i..], dropSource)
                == Fold(Accumulator("", [], []), lines, dropSource)
    {
      var line := lines[i];
      assert lines[i..][1..] == lines[i + 1..];
      if StartsWith(line, "# ") {
        if title != "" && current != [] {
          var content := Join(current, "\n");
          if !IsBlank(content) {
            sections := sections + [Section(title, content)];
          }
        }
        title := CleanTitle(line[2..]);
        current := [line];
      } else {
        if title != "" {
          current := current + [line];
        } else if !IsBlank(line) && !(dropSource && StartsWith(line, "Source:")) {
          title := IntroTitle;
          current := IntroHeader;
          current := current + [line];
        }
      }
      i := i + 1;
    }
    if title != "" && current != [] {
      var content := Join(current, "\n");
      if !IsBlank(content) {
        sections := sections + [Section(title, content)];
      }
    }
    FoldIsSections(lines, dropSource);
  }

  // ---------------------------------------------------------------------
  // What the reference promises
  // ---------------------------------------------------------------------

  /** Every section has a title, content that is not blank, and content that opens with an h1 line. */
  predicate WellFormed(s: Section) {
    s.title != "" && !IsBlank(s.content) && StartsWith(s.content, "# ")
  }

  lemma IntroductionWellFormed(body: seq<string>, dropSource: bool)
    ensures forall k :: 0 <= k < |Introduction(body, dropSource)| ==> WellFormed(Introduction(body, dropSource)[k])
  {
    var r := Introduction(body, dropSource);
    if r != [] {
      var parts :| |parts| >= 1 && parts[0] == "# Introduction" && r[0] == Section(IntroTitle, Join(parts, "\n"))
        by { IntroductionShape(body, dropSource); }
      JoinStartsWithFirst(parts, "\n");
      assert StartsWith(r[0].content, "# ") by {
        assert r[0].content[..|parts[0]|] == parts[0];
        assert r[0].content[..2] == parts[0][..2];
      }
      HeadingHasText(parts[0]);
      JoinKeepsText(parts, "\n", 0);
    }
  }

  lemma {:induction false} IntroductionShape(body: seq<string>, dropSource: bool)
    ensures Introduction(body, dropSource) != [] ==>
              exists parts :: |parts| >= 1 && parts[0] == "# Introduction"
                && Introduction(body, dropSource)[0] == Section(IntroTitle, Join(parts, "\n"))
    decreases |body|
  {
    if body != [] {
      if OpensIntroduction(body[0], dropSource) {
        var parts := IntroHeader + body;
        assert parts[0] == "# Introduction";
      } else {
        IntroductionShape(body[1..], dropSource);
      }
    }
  }

  lemma {:induction false} HeadedWellFormed(lines: seq<string>, dropSource: bool)
    requires lines == [] || IsHeading(lines[0])
    ensures forall k :: 0 <= k < |HeadedSections(lines, dropSource)| ==> WellFormed(HeadedSections(lines, dropSource)[k])
    decreases |lines|
  {
    if lines != [] {
      var e := NextHeading(lines, 1);
      var title := HeadingTitle(lines[0]);
      var first := if title != "" then [Section(title, Join(lines[..e], "\n"))] else Introduction(lines[1..e], dropSource);
      if title != "" {
        TitledWellFormed(lines[..e], title);
      } else {
        IntroductionWellFormed(lines[1..e], dropSource);
      }
      HeadedWellFormed(lines[e..], dropSource);
      var rest := HeadedSections(lines[e..], dropSource);
      assert HeadedSections(lines, dropSource) == first + rest;
      AllWellFormedAppend(first, rest);
    }
  }

  /** A titled section built from lines that open with a heading is well formed. */
  lemma TitledWellFormed(parts: seq<string>, title: string)
    requires parts != [] && IsHeading(parts[0]) && title != ""
    ensures WellFormed(Section(title, Join(parts, "\n")))
  {
    JoinStartsWithFirst(parts, "\n");
    assert Join(parts, "\n")[..2] == parts[0][..2];
    HeadingHasText(parts[0]);
    JoinKeepsText(parts, "\n", 0);
  }

  /** Two runs of well-formed sections make one. */
  lemma AllWellFormedAppend(a: seq<Section>, b: seq<Section>)
    requires forall k :: 0 <= k < |a| ==> WellFormed(a[k])
    requires forall k :: 0 <= k < |b| ==> WellFormed(b[k])
    ensures forall k :: 0 <= k < |a + b| ==> WellFormed((a + b)[k])
  {
    forall k | 0 <= k < |a + b| ensures WellFormed((a + b)[k]) {
      if k >= |a| {
        assert (a + b)[k] == b[k - |a|];
      }
    }
  }

  /**
   * Every section the splitter yields has a non-empty title and opens with an
   * h1 line, so its content is never whitespace: the "drop blank sections"
   * test never drops anything.
   */
  lemma SectionsWellFormed(lines: seq<string>, dropSource: bool)
    ensures forall k :: 0 <= k < |Sections(lines, dropSource)| ==> WellFormed(Sections(lines, dropSource)[k])
  {
    var e := NextHeading(lines, 0);
    IntroductionWellFormed(lines[..e], dropSource);
    HeadedWellFormed(lines[e..], dropSource);
    var a := Introduction(lines[..e], dropSource);
    var r := Sections(lines, dropSource);
    forall k | 0 <= k < |r| ensures WellFormed(r[k]) {
      if k >= |a| {
        assert r[k] == HeadedSections(lines[e..], dropSource)[k - |a|];
      }
    }
  }

  /** Sections keep document order: splitting at a heading, the halves' sections are concatenated. */
  lemma {:induction false} HeadedAppend(x: seq<string>, y: seq<string>, dropSource: bool)
    requires x == [] || IsHeading(x[0])
    requires y == [] || IsHeading(y[0])
    ensures HeadedSections(x + y, dropSource) == HeadedSections(x, dropSource) + HeadedSections(y, dropSource)
    decreases |x|
  {
    if x == [] {
      assert x + y == y;
    } else {
      var xy := x + y;
      var e := NextHeading(x, 1);
      NextHeadingPrefix(x, y, 1);
      SliceOfAppend(x, y, e);
      var title := HeadingTitle(x[0]);
      var head := if title != "" then [Section(title, Join(x[..e], "\n"))] else Introduction(x[1..e], dropSource);
      assert HeadedSections(xy, dropSource) == head + HeadedSections(x[e..] + y, dropSource);
      assert HeadedSections(x, dropSource) == head + HeadedSections(x[e..], dropSource);
      HeadedAppend(x[e..], y, dropSource);
      Regroup(head, HeadedSections(x[e..], dropSource), HeadedSections(y, dropSource));
    }
  }

  /** Cutting `x + y` inside `x`: the part before the cut, and the rest followed by `y`. */
  lemma CutOfAppend<T>(x: seq<T>, y: seq<T>, e: nat)
    requires e <= |x|
    ensures (x + y)[..e] == x[..e] && (x + y)[e..] == x[e..] + y
  {
    assert (x + y)[..e] == x[..e];
    assert (x + y)[e..] == x[e..] + y;
  }

  /** The slices of `x + y` that end inside `x`, and the one that starts there. */
  lemma SliceOfAppend<T>(x: seq<T>, y: seq<T>, e: nat)
    requires 1 <= e <= |x|
    ensures var xy := x + y;
            xy[0] == x[0] && xy[..e] == x[..e] && xy[1..e] == x[1..e] && xy[e..] == x[e..] + y
  {
    var xy := x + y;
    assert xy[..e] == x[..e];
    assert xy[1..e] == x[1..e];
    assert xy[e..] == x[e..] + y;
  }

  /** Looking for the next heading in `x + y`, where `y` opens at a heading, never looks past `x`. */
  lemma {:induction false} NextHeadingPrefix(x: seq<string>, y: seq<string>, k: nat)
    requires k <= |x| && (y == [] || IsHeading(y[0]))
    ensures NextHeading(x + y, k) == NextHeading(x, k)
    decreases |x| - k
  {
    var xy := x + y;
    if k < |x| {
      assert xy[k] == x[k];
      if !IsHeading(x[k]) {
        NextHeadingPrefix(x, y, k + 1);
      }
    }
  }

  /**
   * Document order, stated on the whole splitter: a document cut just before
   * a heading yields the sections of its first part followed by the sections
   * the second part yields on its own.
   */
  lemma SectionsAppend(x: seq<string>, y: seq<string>, dropSource: bool)
    requires y != [] && IsHeading(y[0])
    ensures Sections(x + y, dropSource) == Sections(x, dropSource) + HeadedSections(y, dropSource)
  {
    var xy := x + y;
    var e := NextHeading(x, 0);
    NextHeadingPrefix(x, y, 0);
    CutOfAppend(x, y, e);
    var tail := x[e..];
    if e < |x| {
      assert tail[0] == x[e];
    } else {
      assert tail == [];
    }
    assert Sections(xy, dropSource) == Introduction(x[..e], dropSource) + HeadedSections(tail + y, dropSource);
    HeadedAppend(tail, y, dropSource);
    assert Sections(x, dropSource) == Introduction(x[..e], dropSource) + HeadedSections(tail, dropSource);
    Regroup(Introduction(x[..e], dropSource), HeadedSections(tail, dropSource), HeadedSections(y, dropSource));
  }

  /**
   * A heading with a title, followed by lines none of which is a heading,
   * yields exactly one section of that title, whose content is the whole
   * block, heading line included.
   */
  lemma TitledHeadingOpensSection(lines: seq<string>, dropSource: bool)
    requires lines != [] && IsHeading(lines[0]) && HeadingTitle(lines[0]) != ""
    requires forall j :: 1 <= j < |lines| ==> !IsHeading(lines[j])
    ensures HeadedSections(lines, dropSource) == [Section(HeadingTitle(lines[0]), Join(lines, "\n"))]
  {
    NextHeadingNone(lines, 1);
    assert lines[..|lines|] == lines && lines[|lines|..] == [];
  }

  lemma {:induction false} NextHeadingNone(lines: seq<string>, k: nat)
    requires k <= |lines|
    requires forall j :: k <= j < |lines| ==> !IsHeading(lines[j])
    ensures NextHeading(lines, k) == |lines|
    decreases |lines| - k
  {
    if k < |lines| {
      NextHeadingNone(lines, k + 1);
    }
  }

  /**
   * Before the first heading, the "Introduction" starts at the first line that
   * opens one; every earlier line is dropped.
   */
  lemma {:induction false} IntroductionStartsAtFirstOpener(body: seq<string>, k: nat, dropSource: bool)
    requires k < |body| && OpensIntroduction(body[k], dropSource)
    requires forall j :: 0 <= j < k ==> !OpensIntroduction(body[j], dropSource)
    ensures Introduction(body, dropSource) == [Section(IntroTitle, Join(IntroHeader + body[k..], "\n"))]
    decreases k
  {
    if k > 0 {
      IntroductionStartsAtFirstOpener(body[1..], k - 1, dropSource);
      assert body[1..][k - 1..] == body[k..];
    }
  }

  /** A pre-heading block of nothing but blank lines yields no section. */
  lemma {:induction false} BlankPreambleDropped(body: seq<string>, dropSource: bool)
    requires forall j :: 0 <= j < |body| ==> IsBlank(body[j])
    ensures Introduction(body, dropSource) == []
    decreases |body|
  {
    if body != [] {
      BlankPreambleDropped(body[1..], dropSource);
    }
  }

  /** A "Source:" line before the first heading opens an "Introduction" in one script and not in the other. */
  lemma SourceLineBeforeHeading(line: string)
    requires StartsWith(line, "Source:")
    ensures Introduction([line], true) == []
    ensures Introduction([line], false) == [Section(IntroTitle, Join(IntroHeader + [line], "\n"))]
  {
    assert line[0] == 'S';
  }

  // ---------------------------------------------------------------------
  // sanitize_filename
  // ---------------------------------------------------------------------

  /** The characters the first substitution keeps: `[\w\s-]`. */
  predicate Kept(c: char) {
    IsWordChar(c) || IsSpace(c) || c == '-'
  }

  /** `re.sub(r'[^\w\s-]', '', title)`. */
  function RemoveSpecial(s: string): (r: string)
    ensures forall i :: 0 <= i < |r| ==> Kept(r[i])
    ensures (forall i :: 0 <= i < |s| ==> Kept(s[i])) ==> r == s
  {
    if s == [] then []
    else if Kept(s[0]) then [s[0]] + RemoveSpecial(s[1..])
    else RemoveSpecial(s[1..])
  }

  predicate DashOrSpace(c: char) {
    c == '-' || IsSpace(c)
  }

  /** `re.sub(r'[-\s]+', '-', ...)`: every maximal run of dashes and whitespace becomes one dash. */
  function CollapseRuns(s: string): string
    decreases |s|
  {
    if s == [] then []
    else if DashOrSpace(s[0]) then
      TrimStartShorter(s);
      ['-'] + CollapseRuns(TrimStart(s, DashOrSpace))
    else [s[0]] + CollapseRuns(s[1..])
  }

  /** `TrimStart` on a run-opening character drops at least that character. */
  lemma TrimStartShorter(s: string)
    requires s != [] && DashOrSpace(s[0])
    ensures |TrimStart(s, DashOrSpace)| < |s|
  {
    TrimStartSpec(s, DashOrSpace);
  }

  /**
   * After collapsing, no whitespace is left, no two dashes are adjacent, and
   * a dash comes first exactly when the input opens with a dash or a space;
   * characters other than dashes come from the input, so kept characters
   * give name characters.
   */
  lemma {:induction false} CollapseRunsSpec(s: string)
    ensures var r := CollapseRuns(s);
            && (forall i :: 0 <= i < |r| ==> !IsSpace(r[i]))
            && (forall i :: 0 <= i < |r| - 1 ==> !(r[i] == '-' && r[i + 1] == '-'))
            && (r != [] <==> s != [])
            && (r != [] ==> (r[0] == '-' <==> DashOrSpace(s[0])))
            && ((forall i :: 0 <= i < |s| ==> Kept(s[i])) ==> forall i :: 0 <= i < |r| ==> NameChar(r[i]))
    decreases |s|
  {
    if s != [] {
      var rest := if DashOrSpace(s[0]) then TrimStart(s, DashOrSpace) else s[1..];
      if DashOrSpace(s[0]) {
        TrimStartSpec(s, DashOrSpace);
        TrimStartShorter(s);
        assert forall i :: 0 <= i < |rest| ==> rest[i] == s[|s| - |rest| + i];
      }
      CollapseRunsSpec(rest);
      var r := CollapseRuns(s);
      assert r == [r[0]] + CollapseRuns(rest);
    }
  }

  /** A file-name character: an ASCII word character or '-'. */
  predicate NameChar(c: char) {
    IsWordChar(c) || c == '-'
  }

  /** What `sanitize_filename` promises of its output. */
  predicate SafeName(s: string) {
    (forall i :: 0 <= i < |s| ==> NameChar(s[i]) && !('A' <= s[i] <= 'Z'))
    && (s != [] ==> s[0] != '-' && s[|s| - 1] != '-')
    && (forall i :: 0 <= i < |s| - 1 ==> !(s[i] == '-' && s[i + 1] == '-'))
  }

  predicate IsDash(c: char) {
    c == '-'
  }

  /** `sanitize_filename`: drop special characters, collapse dash/space runs to '-', lower-case, strip '-'. */
  function SanitizeFilename(title: string): string {
    Strip(Lower(CollapseRuns(RemoveSpecial(title))), IsDash)
  }

  /** The sanitized name holds only lower-case name characters, has no dash at either end and no "--". */
  lemma SanitizeSafe(title: string)
    ensures SafeName(SanitizeFilename(title))
  {
    var collapsed := CollapseRuns(RemoveSpecial(title));
    CollapseRunsSpec(RemoveSpecial(title));
    LowerKeepsNameChars(collapsed);
    StripKeepsSafe(Lower(collapsed));
  }

  /** Stripping dashes from a dash-run-free name of lower-case name characters leaves a safe name. */
  lemma StripKeepsSafe(s: string)
    requires forall i :: 0 <= i < |s| ==> NameChar(s[i]) && !('A' <= s[i] <= 'Z')
    requires forall i :: 0 <= i < |s| - 1 ==> !(s[i] == '-' && s[i + 1] == '-')
    ensures SafeName(Strip(s, IsDash))
  {
    StripSpec(s, IsDash);
    StripSlice(s, IsDash);
    var a := |s| - |TrimStart(s, IsDash)|;
    SliceKeepsLowerNames(s, a, a + |Strip(s, IsDash)|);
  }

  /** Any slice of a dash-run-free name of lower-case name characters is one too. */
  lemma SliceKeepsLowerNames(s: string, a: int, b: int)
    requires 0 <= a <= b <= |s|
    requires forall i :: 0 <= i < |s| ==> NameChar(s[i]) && !('A' <= s[i] <= 'Z')
    requires forall i :: 0 <= i < |s| - 1 ==> !(s[i] == '-' && s[i + 1] == '-')
    ensures forall i :: 0 <= i < b - a ==> NameChar(s[a..b][i]) && !('A' <= s[a..b][i] <= 'Z')
    ensures forall i :: 0 <= i < b - a - 1 ==> !(s[a..b][i] == '-' && s[a..b][i + 1] == '-')
  {
    forall i | 0 <= i < b - a - 1 ensures !(s[a..b][i] == '-' && s[a..b][i + 1] == '-') {
      assert s[a..b][i] == s[a + i] && s[a..b][i + 1] == s[a + i + 1];
    }
  }

  /** The lowered name characters of a collapsed name. */
  lemma LowerKeepsNameChars(s: string)
    requires forall i :: 0 <= i < |s| ==> NameChar(s[i])
    ensures forall i :: 0 <= i < |Lower(s)| ==> NameChar(Lower(s)[i]) && !('A' <= Lower(s)[i] <= 'Z')
  {
  }

  /** On a safe name each step of `sanitize_filename` changes nothing. */
  lemma {:induction false} CollapseSafe(s: string)
    requires forall i :: 0 <= i < |s| ==> NameChar(s[i])
    requires forall i :: 0 <= i < |s| - 1 ==> !(s[i] == '-' && s[i + 1] == '-')
    ensures CollapseRuns(s) == s
    decreases |s|
  {
    if s != [] {
      var t := s[1..];
      CollapseSafe(t);
      if s[0] == '-' {
        assert TrimStart(s, DashOrSpace) == TrimStart(t, DashOrSpace);
        if t != [] {
          assert t[0] == s[1] && !DashOrSpace(s[1]);
        }
        assert TrimStart(t, DashOrSpace) == t;
        assert CollapseRuns(s) == ['-'] + CollapseRuns(t);
      } else {
        assert !DashOrSpace(s[0]);
        assert CollapseRuns(s) == [s[0]] + CollapseRuns(t);
      }
      assert [s[0]] + t == s;
    }
  }

  lemma {:induction false} LowerSafe(s: string)
    requires forall i :: 0 <= i < |s| ==> !('A' <= s[i] <= 'Z')
    ensures Lower(s) == s
  {
    assert forall i :: 0 <= i < |s| ==> Lower(s)[i] == s[i];
  }

  /** `sanitize_filename` is idempotent: a sanitized name is its own sanitization. */
  lemma SanitizeIdempotent(title: string)
    ensures SanitizeFilename(SanitizeFilename(title)) == SanitizeFilename(title)
  {
    var s := SanitizeFilename(title);
    SanitizeSafe(title);
    assert forall i :: 0 <= i < |s| ==> Kept(s[i]);
    assert RemoveSpecial(s) == s;
    CollapseSafe(s);
    LowerSafe(s);
    assert TrimStart(s, IsDash) == s;
    assert TrimEnd(s, IsDash) == s;
  }

  /** The name a section is saved under: the sanitized title, or "untitled" when nothing is left. */
  function OutputName(title: string): (name: string)
    ensures name != ""
    ensures SanitizeFilename(title) != "" ==> name == SanitizeFilename(title)
    ensures SanitizeFilename(title) == "" ==> name == "untitled"
  {
    var s := SanitizeFilename(title);
    if s == "" then "untitled" else s
  }

  /**
   * Every saved name is a safe name: lower-case word characters and single
   * inner dashes, never empty; so it holds neither '/' nor '.', and the file
   * it names stays directly inside the output directory.
   */
  lemma OutputNameSafe(title: string)
    ensures var name := OutputName(title);
            && name != "" && SafeName(name)
            && forall i :: 0 <= i < |name| ==> name[i] != '/' && name[i] != '.'
  {
    SanitizeSafe(title);
    var u := "untitled";
    assert forall i :: 0 <= i < |u| ==> 'a' <= u[i] <= 'z';
  }

  /** A run of characters that are neither dashes nor whitespace passes through the collapse unchanged. */
  lemma {:induction false} CollapseKeepsWord(w: string, s: string)
    requires forall i :: 0 <= i < |w| ==> !DashOrSpace(w[i])
    ensures CollapseRuns(w + s) == w + CollapseRuns(s)
    decreases |w|
  {
    if w != [] {
      var ws := w + s;
      assert ws[0] == w[0] && ws[1..] == w[1..] + s;
      assert !DashOrSpace(w[0]);
      assert CollapseRuns(ws) == [w[0]] + CollapseRuns(w[1..] + s);
      CollapseKeepsWord(w[1..], s);
      assert [w[0]] + (w[1..] + CollapseRuns(s)) == w + CollapseRuns(s);
    } else {
      assert w + s == s;
    }
  }

  /** A space before a word becomes one dash. */
  lemma CollapseSpaceExample()
    ensures CollapseRuns(" Id") == "-Id"
  {
    assert " Id"[1..] == "Id";
    assert TrimStart("Id", DashOrSpace) == "Id";
    CollapseSafe("Id");
  }

  /** The run-collapsing step on a two-word title. */
  lemma CollapseExample()
    ensures CollapseRuns("My Id") == "My-Id"
  {
    CollapseSpaceExample();
    assert "My Id" == "My" + " Id";
    CollapseKeepsWord("My", " Id");
  }

  /** Special characters go; word characters, whitespace and dashes stay. */
  lemma RemoveSpecialExamples()
    ensures RemoveSpecial("My Id") == "My Id"
    ensures RemoveSpecial("?!") == ""
  {
    assert forall i :: 0 <= i < |"My Id"| ==> Kept("My Id"[i]);
    assert "?!"[1..] == "!" && "!"[1..] == "";
  }

  /** Lower-casing, then a strip that finds no dash at either end. */
  lemma LowerStripExample()
    ensures Strip(Lower("My-Id"), IsDash) == "my-id"
  {
    assert Lower("My-Id") == "my-id";
    assert TrimStart("my-id", IsDash) == "my-id";
    assert TrimEnd("my-id", IsDash) == "my-id";
  }

  /** Two titles and the names they are saved under. */
  lemma SanitizeExamples()
    ensures SanitizeFilename("My Id") == "my-id"
    ensures OutputName("?!") == "untitled"
  {
    RemoveSpecialExamples();
    CollapseExample();
    LowerStripExample();
  }
}
