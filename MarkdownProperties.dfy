/** What `parseMarkdownSections` (src/lib/markdown.ts) guarantees, stated about the
    specification functions of `Markdown` and therefore about the parser methods,
    which are proved equal to them. */
module MarkdownProperties {
  import opened Wrappers
  import opened Text
  import opened MarkdownScan
  import opened Markdown

  // ---------------------------------------------------------------------------
  // Code blocks

  /** One code block per fence the scan finds... */
  lemma {:induction false} CodeBlocksCount(stepContent: string, from: nat)
    requires from <= |stepContent|
    ensures |CodeBlocksFrom(stepContent, from)| == |ScanFences(stepContent, from)|
    decreases |stepContent| - from
  {
    match FindFence(stepContent, from)
    case None =>
    case Some(m) =>
      CodeBlocksCount(stepContent, m.end);
  }

  /** ... each built from its fence. */
  lemma {:induction false} CodeBlockFromFence(stepContent: string, from: nat, i: nat)
    requires from <= |stepContent|
    requires i < |ScanFences(stepContent, from)|
    ensures i < |CodeBlocksFrom(stepContent, from)|
    ensures CodeBlocksFrom(stepContent, from)[i] == CodeBlockOf(ScanFences(stepContent, from)[i])
    decreases |stepContent| - from
  {
    CodeBlocksCount(stepContent, from);
    var m := FindFence(stepContent, from).value;
    if i > 0 {
      CodeBlockFromFence(stepContent, m.end, i - 1);
    }
  }

  /** The inner text of a fence never contains three backticks: it stops at the first. */
  lemma InnerHasNoFence(s: string, f: FenceMatch, k: nat)
    requires IsFenceMatch(s, f)
    ensures !At(f.inner, k, FenceMarker)
  {
    var b := f.start + 3 + |f.tag| + 1;
    if At(f.inner, k, FenceMarker) {
      SliceOccurrence(s, b, b + |f.inner|, FenceMarker, k);
    }
  }

  /** The `i`-th code block of a step body comes from a genuine fence match. */
  lemma CodeBlockFence(stepContent: string, i: nat) returns (f: FenceMatch)
    requires i < |CodeBlocks(stepContent)|
    ensures IsFenceMatch(stepContent, f)
    ensures CodeBlocks(stepContent)[i] == CodeBlockOf(f)
  {
    CodeBlocksCount(stepContent, 0);
    f := ScanFences(stepContent, 0)[i];
    CodeBlockFromFence(stepContent, 0, i);
    ScanFencesOrdered(stepContent, 0, i);
    FenceAtIsMatch(stepContent, f.start);
  }

  /** The language of a code block is "bash" or the fence's non-empty tag of
      `[\w-]` characters. */
  lemma CodeBlockLanguage(stepContent: string, i: nat)
    requires i < |CodeBlocks(stepContent)|
    ensures var c := CodeBlocks(stepContent)[i];
            c.language == DefaultLanguage
            || (|c.language| > 0 && forall k :: 0 <= k < |c.language| ==> IsTagChar(c.language[k]))
  {
    var f := CodeBlockFence(stepContent, i);
  }

  /** The code of a code block is trimmed and contains no three backticks. */
  lemma CodeBlockCode(stepContent: string, i: nat)
    requires i < |CodeBlocks(stepContent)|
    ensures Trim(CodeBlocks(stepContent)[i].code) == CodeBlocks(stepContent)[i].code
    ensures !Includes(CodeBlocks(stepContent)[i].code, FenceMarker)
  {
    var f := CodeBlockFence(stepContent, i);
    var code := Trim(f.inner);
    TrimIdempotent(f.inner);
    forall k: nat | k <= |code|
      ensures !At(code, k, FenceMarker)
    {
      if At(code, k, FenceMarker) {
        var j := TrimCreatesNoOccurrence(f.inner, FenceMarker, k);
        InnerHasNoFence(stepContent, f, j + k);
      }
    }
  }

  /** A step body yields no code block exactly when the fence pattern matches
      nowhere in it, for instance when an opening fence is never closed. */
  lemma CodeBlocksEmpty(stepContent: string)
    ensures CodeBlocks(stepContent) == []
            <==> forall p :: 0 <= p <= |stepContent| ==> FenceAt(stepContent, p).None?
  {
    CodeBlocksCount(stepContent, 0);
    ScanFencesEmpty(stepContent, 0);
  }

  // ---------------------------------------------------------------------------
  // Steps

  /** One entry per code block with that block's code and language, all sharing
      the description; or a single entry with neither when there is no block. */
  lemma StepMultiplicity(description: string, codes: seq<CodeBlock>)
    ensures var r := StepEntries(description, codes);
            && |r| == (if |codes| == 0 then 1 else |codes|)
            && (forall j :: 0 <= j < |r| ==> r[j].description == description)
            && (|codes| == 0 ==> r[0].code.None? && r[0].language.None?)
            && (forall j :: 0 <= j < |codes| ==> r[j].code == Some(codes[j].code) && r[j].language == Some(codes[j].language))
  {
  }

  /** The entries of a sequence of step matches, concatenated in order. */
  function StepsOfMatches(ms: seq<HeadingMatch>): (r: seq<Step>)
    ensures |r| >= |ms|
    ensures r == [] <==> ms == []
  {
    if ms == [] then [] else EntriesOf(ms[0]) + StepsOfMatches(ms[1..])
  }

  /** The steps of a body are the entries of every step heading the scan finds,
      in document order. */
  lemma {:induction false} StepsFollowHeadings(content: string, from: nat)
    requires from <= |content|
    ensures StepsFrom(content, from) == StepsOfMatches(ScanHeadings(content, from, StepMarker))
    decreases |content| - from
  {
    match FindHeading(content, from, StepMarker)
    case None =>
    case Some(m) =>
      StepsFollowHeadings(content, m.end);
      var ms := ScanHeadings(content, from, StepMarker);
      assert ms[1..] == ScanHeadings(content, m.end, StepMarker);
  }

  /** A body has no steps exactly when the step pattern matches nowhere in it. */
  lemma StepsEmpty(content: string)
    ensures Steps(content) == [] <==> forall p :: 0 <= p <= |content| ==> HeadingAt(content, p, StepMarker).None?
  {
    StepsFollowHeadings(content, 0);
    ScanHeadingsEmpty(content, 0, StepMarker);
  }

  /** A body without "### " has no steps, and all of it is prose. */
  lemma NoStepMarkerNoSteps(content: string)
    requires forall k: nat :: !At(content, k, StepMarker)
    ensures Steps(content) == []
    ensures SplitHead(content, StepMarker) == content
  {
    forall p | 0 <= p <= |content|
      ensures HeadingAt(content, p, StepMarker).None?
    {
      assert !At(content, p, StepMarker);
    }
    StepsEmpty(content);
  }

  // ---------------------------------------------------------------------------
  // Sections

  /** One section per heading the scan finds... */
  lemma {:induction false} SectionsCount(markdown: string, from: nat, render: string -> string)
    requires from <= |markdown|
    ensures |SectionsFrom(markdown, from, render)| == |ScanHeadings(markdown, from, SectionMarker)|
    decreases |markdown| - from
  {
    match FindHeading(markdown, from, SectionMarker)
    case None =>
    case Some(m) =>
      SectionsCount(markdown, m.end, render);
  }

  /** ... each built from its match. */
  lemma {:induction false} SectionFromHeading(markdown: string, from: nat, render: string -> string, i: nat)
    requires from <= |markdown|
    requires i < |ScanHeadings(markdown, from, SectionMarker)|
    ensures i < |SectionsFrom(markdown, from, render)|
    ensures SectionsFrom(markdown, from, render)[i] == SectionOf(ScanHeadings(markdown, from, SectionMarker)[i], render)
    decreases |markdown| - from
  {
    SectionsCount(markdown, from, render);
    var m := FindHeading(markdown, from, SectionMarker).value;
    if i > 0 {
      SectionFromHeading(markdown, m.end, render, i - 1);
    }
  }

  /** The `i`-th section comes from a genuine match of the section pattern. */
  lemma SectionHeading(markdown: string, render: string -> string, i: nat) returns (m: HeadingMatch)
    requires i < |Sections(markdown, render)|
    ensures i < |ScanHeadings(markdown, 0, SectionMarker)| && m == ScanHeadings(markdown, 0, SectionMarker)[i]
    ensures IsHeadingMatch(markdown, m, SectionMarker)
    ensures Sections(markdown, render)[i] == SectionOf(m, render)
  {
    SectionsCount(markdown, 0, render);
    m := ScanHeadings(markdown, 0, SectionMarker)[i];
    SectionFromHeading(markdown, 0, render, i);
    ScanHeadingsOrdered(markdown, 0, SectionMarker, i);
    HeadingAtIsMatch(markdown, m.start, SectionMarker);
  }

  /** The section pattern consumes every "### " heading, since "## " occurs inside
      "### ": no section ever has steps, and its content is its whole body. */
  lemma SectionHasNoSteps(s: string, m: HeadingMatch)
    requires IsHeadingMatch(s, m, SectionMarker)
    ensures Steps(m.body) == []
    ensures SplitHead(m.body, StepMarker) == m.body
  {
    forall k: nat
      ensures !At(m.body, k, StepMarker)
    {
      SectionBodyHasNoStepMarker(s, m, k);
    }
    NoStepMarkerNoSteps(m.body);
  }

  /** The `i`-th section: its title is the trimmed title of the `i`-th "## "
      heading, its content the rendered trimmed body up to the next "## ", and its
      step list is empty. */
  lemma SectionShape(markdown: string, render: string -> string, i: nat)
    requires i < |Sections(markdown, render)|
    ensures var ms := ScanHeadings(markdown, 0, SectionMarker);
            var sec := Sections(markdown, render)[i];
            && i < |ms|
            && var m := ms[i];
            && sec.title == Trim(m.title)
            && sec.content == render(Trim(m.body))
            && sec.steps == []
  {
    var m := SectionHeading(markdown, render, i);
    SectionHasNoSteps(markdown, m);
  }

  /** The marker and title of a section heading hold no newline. */
  lemma HeadingLineHasNoNewline(s: string, n: HeadingMatch)
    requires IsHeadingMatch(s, n, SectionMarker)
    ensures forall k :: n.start <= k < BodyStart(n, SectionMarker) - 1 ==> s[k] != '\n'
  {
    forall k | n.start <= k < BodyStart(n, SectionMarker) - 1
      ensures s[k] != '\n'
    {
      if k < n.start + 3 {
        assert s[k] == s[n.start..n.start + 3][k - n.start];
      } else {
        assert s[k] == n.title[k - n.start - 3];
        assert !IsLineTerminator(n.title[k - n.start - 3]);
      }
    }
  }

  /** A "### " heading at the start of a line, whose line ends in "\n", opens a
      section of its own: the "## " one character in matches there, so the section
      is titled with the text after "### ". */
  lemma StepHeadingOpensSection(markdown: string, render: string -> string, q: nat) returns (i: nat)
    requires At(markdown, q, StepMarker) && (q == 0 || markdown[q - 1] == '\n')
    requires HeadingAt(markdown, q + 1, SectionMarker).Some?
    ensures var m := HeadingAt(markdown, q + 1, SectionMarker).value;
            && i < |Sections(markdown, render)|
            && Sections(markdown, render)[i] == SectionOf(m, render)
            && q + 4 + |m.title| <= |markdown|
            && m.title == markdown[q + 4..q + 4 + |m.title|]
  {
    i := StepHeadingScanned(markdown, q);
    SectionsCount(markdown, 0, render);
    SectionFromHeading(markdown, 0, render, i);
    StepHeadingTitle(markdown, q);
  }

  /** The title of the "## " match inside "### " is the text after "### ". */
  lemma StepHeadingTitle(markdown: string, q: nat)
    requires q + 1 <= |markdown| && HeadingAt(markdown, q + 1, SectionMarker).Some?
    ensures var m := HeadingAt(markdown, q + 1, SectionMarker).value;
            && q + 4 + |m.title| <= |markdown|
            && m.title == markdown[q + 4..q + 4 + |m.title|]
  {
    HeadingAtIsMatch(markdown, q + 1, SectionMarker);
  }

  /** The scan for "## " headings stops at the one inside a "### " that starts a line. */
  lemma StepHeadingScanned(markdown: string, q: nat) returns (i: nat)
    requires At(markdown, q, StepMarker) && (q == 0 || markdown[q - 1] == '\n')
    requires HeadingAt(markdown, q + 1, SectionMarker).Some?
    ensures i < |ScanHeadings(markdown, 0, SectionMarker)|
    ensures ScanHeadings(markdown, 0, SectionMarker)[i] == HeadingAt(markdown, q + 1, SectionMarker).value
  {
    i := ScanHeadingsComplete(markdown, 0, SectionMarker, q + 1);
    ScanHeadingsOrdered(markdown, 0, SectionMarker, i);
    var n := ScanHeadings(markdown, 0, SectionMarker)[i];
    HeadingAtIsMatch(markdown, n.start, SectionMarker);
    MatchCoveringStepHeading(markdown, n, q);
  }

  /** A "## " match that covers the "## " inside a line-initial "### " starts there:
      it cannot start earlier on the same line, nor hold it in its body. */
  lemma MatchCoveringStepHeading(markdown: string, n: HeadingMatch, q: nat)
    requires IsHeadingMatch(markdown, n, SectionMarker)
    requires At(markdown, q, StepMarker) && (q == 0 || markdown[q - 1] == '\n')
    requires n.start <= q + 1 < n.end
    ensures n.start == q + 1
  {
    assert markdown[q..q + 4] == StepMarker;
    StepMarkerIsNoSectionMarker(markdown, q);
    if q + 1 >= BodyStart(n, SectionMarker) {
      assert At(markdown, q + 1, SectionMarker);
    } else if n.start < q {
      HeadingLineHasNoNewline(markdown, n);
    }
  }

  /** "## " does not match where "### " does. */
  lemma StepMarkerIsNoSectionMarker(s: string, q: nat)
    requires At(s, q, StepMarker)
    ensures !At(s, q, SectionMarker)
  {
    assert s[q + 2] == s[q..q + 4][2];
  }

  /** Trimming a line keeps it a line. */
  lemma TrimKeepsOneLine(t: string)
    requires forall k :: 0 <= k < |t| ==> !IsLineTerminator(t[k])
    ensures forall k :: 0 <= k < |Trim(t)| ==> !IsLineTerminator(Trim(t)[k])
  {
    var j, e := TrimSlice(t);
    forall k | 0 <= k < |Trim(t)|
      ensures !IsLineTerminator(Trim(t)[k])
    {
      assert Trim(t)[k] == t[j + k];
    }
  }

  /** Section titles never span lines. */
  lemma SectionTitleIsOneLine(markdown: string, render: string -> string, i: nat)
    requires i < |Sections(markdown, render)|
    ensures forall k :: 0 <= k < |Sections(markdown, render)[i].title| ==>
              !IsLineTerminator(Sections(markdown, render)[i].title[k])
  {
    var m := SectionHeading(markdown, render, i);
    TrimKeepsOneLine(m.title);
  }

  /** No sections exactly when the section pattern matches nowhere. */
  lemma SectionsEmpty(markdown: string, render: string -> string)
    ensures Sections(markdown, render) == []
            <==> forall p :: 0 <= p <= |markdown| ==> HeadingAt(markdown, p, SectionMarker).None?
  {
    SectionsCount(markdown, 0, render);
    ScanHeadingsEmpty(markdown, 0, SectionMarker);
  }

  /** A document without "## " has no sections at all. */
  lemma NoMarkerNoSections(markdown: string, render: string -> string)
    requires !Includes(markdown, SectionMarker)
    ensures Sections(markdown, render) == []
  {
    forall p | 0 <= p <= |markdown|
      ensures HeadingAt(markdown, p, SectionMarker).None?
    {
      assert !At(markdown, p, SectionMarker);
    }
    SectionsEmpty(markdown, render);
  }
}
