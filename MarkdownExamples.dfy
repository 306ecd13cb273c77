module MarkdownExamples {
  import opened Wrappers
  import opened Text
  import opened MarkdownScan
  import opened Markdown
  import opened MarkdownProperties

  const StepUnderSection := "## A\n### B\n"

  lemma FirstHeading()
    ensures HeadingAt(StepUnderSection, 0, SectionMarker) == Some(HeadingMatch(0, "A", "#", 6))
  {
    var s := StepUnderSection;
    assert s[0..3] == SectionMarker && s[5..8] == "###" && s[6..9] == SectionMarker;
    assert s[3..4] == "A" && s[5..6] == "#";
    assert LineEnd(s, 3) == 4;
    assert FirstOccurrence(s, 5, SectionMarker) == 6;
  }

  lemma SecondHeading()
    ensures HeadingAt(StepUnderSection, 6, SectionMarker) == Some(HeadingMatch(6, "B", "", 11))
  {
    var s := StepUnderSection;
    assert s[6..9] == SectionMarker && s[9..10] == "B" && s[10] == '\n' && s[11..11] == "";
    assert LineEnd(s, 9) == 10;
    assert FirstOccurrence(s, 11, SectionMarker) == 11;
  }

  /** The section scan sees two headings: "## A" and the "## B" inside "### B". */
  lemma TwoSectionMatches(render: string -> string)
    ensures Sections(StepUnderSection, render)
            == [SectionOf(HeadingMatch(0, "A", "#", 6), render), SectionOf(HeadingMatch(6, "B", "", 11), render)]
  {
    var s := StepUnderSection;
    FirstHeading();
    SecondHeading();
    assert FindHeading(s, 0, SectionMarker) == Some(HeadingMatch(0, "A", "#", 6));
    assert FindHeading(s, 6, SectionMarker) == Some(HeadingMatch(6, "B", "", 11));
    assert FindHeading(s, 11, SectionMarker) == None;
    assert SectionsFrom(s, 11, render) == [];
  }

  /** A section built from a match of `StepUnderSection`. */
  lemma SectionOfMatch(m: HeadingMatch, render: string -> string)
    requires IsHeadingMatch(StepUnderSection, m, SectionMarker)
    requires Trim(m.title) == m.title && Trim(m.body) == m.body
    ensures SectionOf(m, render) == Section(m.title, render(m.body), [])
  {
    SectionHasNoSteps(StepUnderSection, m);
  }

  /** As written, a "### " step heading under a "## " section opens a second
      section, leaves a stray "#" as the first section's content, and no step is
      produced. */
  lemma StepHeadingBecomesSection(render: string -> string)
    ensures Sections(StepUnderSection, render)
            == [Section("A", render("#"), []), Section("B", render(""), [])]
  {
    var s := StepUnderSection;
    TwoSectionMatches(render);
    FirstHeading();
    SecondHeading();
    HeadingAtIsMatch(s, 0, SectionMarker);
    HeadingAtIsMatch(s, 6, SectionMarker);
    TrimOfTrimmed("A");
    TrimOfTrimmed("B");
    TrimOfTrimmed("#");
    TrimOfTrimmed("");
    SectionOfMatch(HeadingMatch(0, "A", "#", 6), render);
    SectionOfMatch(HeadingMatch(6, "B", "", 11), render);
  }
}
