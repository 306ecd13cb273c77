/** `parseMarkdownSections` of src/lib/markdown.ts: an installation guide in markdown
    becomes an ordered list of sections, each with its prose rendered to HTML and a
    list of steps carrying optional code blocks.

    The source drives three global regular expressions with nested `while` loops and
    pushes onto arrays; the methods below do the same, and each is proved equal to
    a specification function built from the scanners of `MarkdownScan`.  The remark
    HTML renderer is a foreign library and is passed in as `render`. */
module Markdown {
  import opened Wrappers
  import opened Text
  import opened MarkdownScan

  /** One entry of `Section.steps`. */
  datatype Step = Step(description: string, code: Option<string>, language: Option<string>)

  datatype Section = Section(title: string, content: string, steps: seq<Step>)

  /** One element of the `codes` array built from a step's fences. */
  datatype CodeBlock = CodeBlock(code: string, language: string)

  /** The language given to a fence that names none. */
  const DefaultLanguage := "bash"

  // ---------------------------------------------------------------------------
  // Specification

  function CodeBlockOf(f: FenceMatch): CodeBlock {
    CodeBlock(Trim(f.inner), if f.tag == "" then DefaultLanguage else f.tag)
  }

  /** The code blocks a global fence scan of a (trimmed) step body yields from index
      `from` on, in fence order. */
  function CodeBlocksFrom(stepContent: string, from: nat): seq<CodeBlock>
    requires from <= |stepContent|
    decreases |stepContent| - from
  {
    match FindFence(stepContent, from)
    case None => []
    case Some(m) => [CodeBlockOf(m)] + CodeBlocksFrom(stepContent, m.end)
  }

  function CodeBlocks(stepContent: string): seq<CodeBlock> {
    CodeBlocksFrom(stepContent, 0)
  }

  /** One turn of the fence loop: the block of the next fence, then the rest. */
  lemma CodeBlocksFromStep(stepContent: string, from: nat, codes: seq<CodeBlock>)
    requires from <= |stepContent| && FindFence(stepContent, from).Some?
    ensures var m := FindFence(stepContent, from).value;
      codes + CodeBlocksFrom(stepContent, from) == (codes + [CodeBlockOf(m)]) + CodeBlocksFrom(stepContent, m.end)
  {
  }

  /** The entries one step contributes, one per code block. */
  function CodedSteps(description: string, codes: seq<CodeBlock>): seq<Step> {
    seq(|codes|, i requires 0 <= i < |codes| => Step(description, Some(codes[i].code), Some(codes[i].language)))
  }

  /** The loop over the code blocks extends the entries by one per turn. */
  lemma CodedStepsPrefix(description: string, codes: seq<CodeBlock>, k: nat)
    requires k < |codes|
    ensures CodedSteps(description, codes[..k + 1])
            == CodedSteps(description, codes[..k]) + [Step(description, Some(codes[k].code), Some(codes[k].language))]
  {
  }

  /** One entry per code block, or a single entry without code when there is none. */
  function StepEntries(description: string, codes: seq<CodeBlock>): seq<Step> {
    if |codes| > 0 then CodedSteps(description, codes) else [Step(description, None, None)]
  }

  function EntriesOf(m: HeadingMatch): seq<Step> {
    StepEntries(Trim(m.title), CodeBlocks(Trim(m.body)))
  }

  /** The steps a global scan of a section body yields from index `from` on. */
  function StepsFrom(content: string, from: nat): seq<Step>
    requires from <= |content|
    decreases |content| - from
  {
    match FindHeading(content, from, StepMarker)
    case None => []
    case Some(m) => EntriesOf(m) + StepsFrom(content, m.end)
  }

  function Steps(content: string): seq<Step> {
    StepsFrom(content, 0)
  }

  /** One turn of the step loop: the entries of the next step heading, then the rest. */
  lemma StepsFromStep(content: string, from: nat, steps: seq<Step>)
    requires from <= |content| && FindHeading(content, from, StepMarker).Some?
    ensures var m := FindHeading(content, from, StepMarker).value;
      steps + StepsFrom(content, from)
        == (steps + StepEntries(Trim(m.title), CodeBlocks(Trim(m.body)))) + StepsFrom(content, m.end)
  {
    var m := FindHeading(content, from, StepMarker).value;
    StepsFromUnfold(content, from);
    Regroup(steps, EntriesOf(m), StepsFrom(content, m.end), StepsFrom(content, from));
  }

  lemma StepsFromUnfold(content: string, from: nat)
    requires from <= |content| && FindHeading(content, from, StepMarker).Some?
    ensures var m := FindHeading(content, from, StepMarker).value;
      StepsFrom(content, from) == EntriesOf(m) + StepsFrom(content, m.end)
  {
  }

  lemma Regroup<T>(done: seq<T>, next: seq<T>, rest: seq<T>, todo: seq<T>)
    requires todo == next + rest
    ensures done + todo == (done + next) + rest
  {
  }

  /** The section built from one match of the section pattern. */
  function SectionOf(m: HeadingMatch, render: string -> string): Section {
    Section(Trim(m.title), render(Trim(SplitHead(m.body, StepMarker))), Steps(m.body))
  }

  /** The sections a global scan of the document yields from index `from` on. */
  function SectionsFrom(markdown: string, from: nat, render: string -> string): seq<Section>
    requires from <= |markdown|
    decreases |markdown| - from
  {
    match FindHeading(markdown, from, SectionMarker)
    case None => []
    case Some(m) => [SectionOf(m, render)] + SectionsFrom(markdown, m.end, render)
  }

  /** The result of `parseMarkdownSections`. */
  function Sections(markdown: string, render: string -> string): seq<Section> {
    SectionsFrom(markdown, 0, render)
  }

  /** One turn of the section loop: the next section, then the rest. */
  lemma SectionsFromStep(markdown: string, from: nat, render: string -> string, sections: seq<Section>)
    requires from <= |markdown| && FindHeading(markdown, from, SectionMarker).Some?
    ensures var m := FindHeading(markdown, from, SectionMarker).value;
      sections + SectionsFrom(markdown, from, render)
        == (sections + [SectionOf(m, render)]) + SectionsFrom(markdown, m.end, render)
  {
  }

  // ---------------------------------------------------------------------------
  // The parser, loop by loop

  /** The innermost loop: every fence of a step body becomes a code block. */
  method ExtractCodeBlocks(stepContent: string) returns (codes: seq<CodeBlock>)
    ensures codes == CodeBlocks(stepContent)
  {
    codes := [];
    var lastIndex := 0;
    var codeMatch := FindFence(stepContent, lastIndex);
    while codeMatch.Some?
      invariant lastIndex <= |stepContent|
      invariant codeMatch == FindFence(stepContent, lastIndex)
      invariant codes + CodeBlocksFrom(stepContent, lastIndex) == CodeBlocks(stepContent)
      decreases |stepContent| - lastIndex
    {
      var m := codeMatch.value;
      CodeBlocksFromStep(stepContent, lastIndex, codes);
      var language := if m.tag != "" then m.tag else DefaultLanguage;
      codes := codes + [CodeBlock(Trim(m.inner), language)];
      lastIndex := m.end;
      codeMatch := FindFence(stepContent, lastIndex);
    }
    assert codes + [] == codes;
  }

  /** The body of the middle loop after the fences are extracted: one entry per code
      block (the `forEach`), or one entry without code. */
  method PushStepEntries(steps: seq<Step>, description: string, codes: seq<CodeBlock>) returns (r: seq<Step>)
    ensures r == steps + StepEntries(description, codes)
  {
    r := steps;
    if |codes| > 0 {
      var k := 0;
      while k < |codes|
        invariant k <= |codes|
        invariant r == steps + CodedSteps(description, codes[..k])
      {
        r := r + [Step(description, Some(codes[k].code), Some(codes[k].language))];
        CodedStepsPrefix(description, codes, k);
        k := k + 1;
      }
      assert codes[..k] == codes;
    } else {
      r := r + [Step(description, None, None)];
    }
  }

  /** The middle loop: every step heading of a section body contributes its entries. */
  method ExtractSteps(content: string) returns (steps: seq<Step>)
    ensures steps == Steps(content)
  {
    steps := [];
    var lastIndex := 0;
    var stepMatch := FindHeading(content, lastIndex, StepMarker);
    while stepMatch.Some?
      invariant lastIndex <= |content|
      invariant stepMatch == FindHeading(content, lastIndex, StepMarker)
      invariant steps + StepsFrom(content, lastIndex) == Steps(content)
      decreases |content| - lastIndex
    {
      var m := stepMatch.value;
      StepsFromStep(content, lastIndex, steps);
      ghost var rest := StepsFrom(content, m.end);
      var description := Trim(m.title);
      var stepContent := Trim(m.body);
      var codes := ExtractCodeBlocks(stepContent);
      steps := PushStepEntries(steps, description, codes);
      assert steps + rest == Steps(content);
      lastIndex := m.end;
      stepMatch := FindHeading(content, lastIndex, StepMarker);
    }
    assert steps + [] == steps;
  }

  /** `parseMarkdownSections`: the outer loop over section headings. */
  method ParseMarkdownSections(markdown: string, render: string -> string) returns (sections: seq<Section>)
    ensures sections == Sections(markdown, render)
  {
    sections := [];
    var lastIndex := 0;
    var match_ := FindHeading(markdown, lastIndex, SectionMarker);
    while match_.Some?
      invariant lastIndex <= |markdown|
      invariant match_ == FindHeading(markdown, lastIndex, SectionMarker)
      invariant sections + SectionsFrom(markdown, lastIndex, render) == Sections(markdown, render)
      decreases |markdown| - lastIndex
    {
      var m := match_.value;
      SectionsFromStep(markdown, lastIndex, render, sections);
      var title, content := m.title, m.body;
      var steps := ExtractSteps(content);
      var contentWithoutSteps := Trim(SplitHead(content, StepMarker));
      var processedContent := render(contentWithoutSteps);
      sections := sections + [Section(Trim(title), processedContent, steps)];
      lastIndex := m.end;
      match_ := FindHeading(markdown, lastIndex, SectionMarker);
    }
    assert sections + [] == sections;
  }
}
