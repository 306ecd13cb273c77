# DevOps Tool Installer: markdown guides and the tool catalog

This project models the logic core of a Next.js site that publishes installation
guides for DevOps tools.

**The guide parser.** `parseMarkdownSections` in `src/lib/markdown.ts` turns a guide
written in markdown into an ordered list of sections. Each section has:

- a title;
- its prose, rendered to HTML;
- a list of steps, each with an optional code block and language.

The parser drives three global regular expressions with nested `exec` loops:

- `## ` headings make sections;
- `### ` headings make steps;
- triple-backtick fences make code blocks.

**The catalog pages.** `src/app/page.tsx` (home) and `src/app/tools/page.tsx` (tools)
filter the tool list by a search query and a selected category. The home page also
groups the tools it shows under their category.

How the modules map to the source:

- `Text`: the JavaScript string operations the source relies on. These are `trim`
  (the ECMAScript WhiteSpace and LineTerminator set), `includes`, ASCII
  `toLowerCase`, and `split(sep)[0]`.
- `MarkdownScan`: two scanners for the three regular expressions (the two heading
  patterns differ only in their marker, so one scanner serves both), with the matching rules written
  out as the source states them. The patterns are not anchored to the start of a
  line, so a `## ` matches anywhere on a line. Without the `m` flag, the `$` in the
  lookahead means the end of the input, so a body ends at the first later marker or
  at the end of the text. The title is
  the lazy `.+?` and cannot span lines. A fence tag is the run of `[\w-]` characters.
  Each scanner is proved to find the leftmost match, to skip no match, and to return
  its matches in document order.
- `Markdown`: the parser. `ExtractCodeBlocks`, `PushStepEntries`, `ExtractSteps` and
  `ParseMarkdownSections` are `while` loops that push onto sequences, like the
  source. Each is proved equal to a specification function defined over the scanners.
- `MarkdownProperties`: what the parser guarantees, stated about those specification
  functions.
- `MarkdownExamples`: a worked input.
- `Catalog`: the `Tool` record, `filter`, and `Array.from(new Set(...))`.
- `HomePage` and `ToolsPage`: the two pages' filters and their React state. The state
  is modelled as classes whose click and search handlers update fields.

**Where the code and its comments disagree.** The parser's own comments say that
sections are split "based on h2 headers" (src/lib/markdown.ts:15) and that steps are
extracted from "h3 headers" (src/lib/markdown.ts:23): a `### ` heading under a `## `
section should become one of that section's steps. This model follows the code,
which behaves differently:

- The section pattern is not anchored to the start of a line, so `## ` also
  matches inside `### `. Its body stops at the first later `## `, so a section body
  never contains `### ` (`MarkdownScan.SectionBodyHasNoStepMarker`).
- A `### Step` heading at the start of a line whose title line ends in `\n` opens a
  new section titled `Step` (`MarkdownProperties.StepHeadingOpensSection`). A
  heading line ending in `\r\n`, or one at the very end of the text without a
  newline, opens no section at all: the title pattern `.+?\n` does not match it.
- When a `### ` heading ends the body of the section before it, that body ends in a
  stray `#` (`MarkdownScan.StepHeadingEndsPreviousBodyWithHash`).
- Every `steps` list comes out empty, for every input
  (`MarkdownProperties.SectionShape`).

The lemma `MarkdownExamples.StepHeadingBecomesSection` shows all of this on
`"## A\n### B\n"`. The step and fence machinery is still modelled and proved: the
parser runs it on every section body, where it finds nothing.

## Model

| member | source | states |
|---|---|---|
| Wrappers.Option | src/lib/markdown.ts:9-10 | an optional field: `code?` and `language?`, with `undefined` as `None` |
| Markdown.Sections | src/lib/markdown.ts:14-77 | defines the result of `parseMarkdownSections`: one `SectionOf` per match of the section scan, in order |
| Markdown.SectionOf | src/lib/markdown.ts:63-73 | defines the section built from one match: trimmed title, rendered trimmed text before the first `### `, and the steps of the body |
| Markdown.StepEntries | src/lib/markdown.ts:44-60 | defines one step entry per code block, or one entry without code when there is none |
| Markdown.CodeBlockOf | src/lib/markdown.ts:38-41 | defines the code block of one fence: the trimmed inner text, with language the tag or `bash` when it is empty |
| Markdown.Section | src/lib/markdown.ts:4-12 | the section record: title, rendered content, and its list of steps |
| Markdown.Step | src/lib/markdown.ts:7-11 | a step: a description, with an optional code and an optional language |
| Markdown.CodeBlock | src/lib/markdown.ts:34 | a code block found in a step body: its code and its language |
| Markdown.Steps | src/lib/markdown.ts:24-61 | defines the steps of a section body: the entries of every step heading the scan finds, in order |
| Markdown.StepsFrom | src/lib/markdown.ts:25-61 | defines the steps found from one position on, each search resuming where the last step heading ended |
| Markdown.EntriesOf | src/lib/markdown.ts:29-60 | defines the entries of one step heading: its trimmed title as description, and the code blocks of its trimmed body |
| Markdown.CodeBlocks | src/lib/markdown.ts:33-42 | defines the code blocks of a step body: one per fence the scan finds, in order |
| Markdown.CodeBlocksFrom | src/lib/markdown.ts:37-42 | defines the code blocks found from one position on, each search resuming where the last fence ended |
| Markdown.SectionsFrom | src/lib/markdown.ts:20-74 | defines the sections found from one position on, each search resuming where the last section heading ended |
| Markdown.CodedSteps | src/lib/markdown.ts:45-52 | defines the entries of a step with code blocks: one per block, each with the description, the block's code and its language |
| Markdown.ParseMarkdownSections | src/lib/markdown.ts:14-77 | the section loop returns exactly `Sections(markdown, render)`: one section per match of the section pattern, in order |
| Markdown.ExtractSteps | src/lib/markdown.ts:24-61 | the step loop returns exactly `Steps(content)`: the entries of every step heading, in order |
| Markdown.ExtractCodeBlocks | src/lib/markdown.ts:33-42 | the fence loop returns exactly `CodeBlocks(stepContent)`: one block per fence, in order |
| Markdown.PushStepEntries | src/lib/markdown.ts:44-60 | appends one entry per code block, or a single entry without code when there is none, and keeps the earlier steps |
| Markdown.CodedStepsPrefix | src/lib/markdown.ts:46-52 | each turn of the `forEach` appends the step built from that code block |
| Markdown.CodeBlocksFromStep | src/lib/markdown.ts:37-42 | one turn of the fence loop consumes the next fence and continues from its end |
| Markdown.StepsFromUnfold | src/lib/markdown.ts:28-61 | the steps from a position are the entries of the next step heading followed by the steps after its end |
| Markdown.StepsFromStep | src/lib/markdown.ts:28-61 | one turn of the step loop consumes the next step heading and continues from its end |
| Markdown.SectionsFromStep | src/lib/markdown.ts:20-73 | one turn of the section loop consumes the next section heading and continues from its end |
| MarkdownProperties.StepHeadingOpensSection | src/lib/markdown.ts:17-20 | a `### ` heading at the start of a line, whose title line ends in `\n`, is the heading of one of the sections, titled with the text after `### ` |
| MarkdownProperties.StepHeadingScanned | src/lib/markdown.ts:17-20 | the section scan stops at the `## ` inside a line-initial `### ` heading |
| MarkdownProperties.MatchCoveringStepHeading | src/lib/markdown.ts:17 | a section match covering the `## ` inside a line-initial `### ` starts there: it cannot start earlier on that line nor hold it in its body |
| MarkdownProperties.StepHeadingTitle | src/lib/markdown.ts:17 | the title of the `## ` match inside `### ` is the text after `### ` |
| MarkdownProperties.StepMarkerIsNoSectionMarker | src/lib/markdown.ts:17-25 | `## ` does not match where `### ` starts |
| MarkdownProperties.HeadingLineHasNoNewline | src/lib/markdown.ts:17 | the marker and title of a section heading hold no newline |
| MarkdownProperties.SectionShape | src/lib/markdown.ts:17-73 | the `i`-th section's title is the trimmed title of the `i`-th `## ` match, its content is the rendered trimmed body, and its steps are empty |
| MarkdownProperties.SectionHeading | src/lib/markdown.ts:17-21 | every section comes from a genuine match of the section pattern, the `i`-th match of the scan |
| MarkdownProperties.SectionsCount | src/lib/markdown.ts:20 | there is exactly one section per match of the section scan |
| MarkdownProperties.SectionFromHeading | src/lib/markdown.ts:20-73 | the `i`-th section is built from the `i`-th match |
| MarkdownProperties.SectionsEmpty | src/lib/markdown.ts:17-20 | there are no sections exactly when the section pattern matches nowhere |
| MarkdownProperties.NoMarkerNoSections | src/lib/markdown.ts:17 | a document without `## ` has no sections |
| MarkdownProperties.SectionHasNoSteps | src/lib/markdown.ts:17-64 | a section body never contains `### `, so its steps are empty and `split(/### /)[0]` is the whole body |
| MarkdownProperties.SectionTitleIsOneLine | src/lib/markdown.ts:17-70 | section titles contain no line terminator |
| MarkdownProperties.TrimKeepsOneLine | src/lib/markdown.ts:29 | trimming a single line leaves a single line |
| MarkdownProperties.StepsFollowHeadings | src/lib/markdown.ts:25-61 | the steps of a body are the entries of the step scan's matches, concatenated in order |
| MarkdownProperties.StepsEmpty | src/lib/markdown.ts:25-28 | a body has no steps exactly when the step pattern matches nowhere in it |
| MarkdownProperties.NoStepMarkerNoSteps | src/lib/markdown.ts:25-64 | a body without `### ` has no steps, and all of it is prose |
| MarkdownProperties.StepMultiplicity | src/lib/markdown.ts:44-60 | a step heading gives one entry per code block, each with that block's code and language, or one entry with neither; every entry carries the description |
| MarkdownProperties.StepsOfMatches | src/lib/markdown.ts:28-61 | every step heading contributes at least one entry, so there are steps exactly when there are step headings |
| MarkdownProperties.CodeBlocksCount | src/lib/markdown.ts:37 | there is exactly one code block per match of the fence scan |
| MarkdownProperties.CodeBlockFromFence | src/lib/markdown.ts:37-41 | the `i`-th code block is built from the `i`-th fence |
| MarkdownProperties.CodeBlockFence | src/lib/markdown.ts:33-41 | every code block comes from a genuine fence match |
| MarkdownProperties.CodeBlockLanguage | src/lib/markdown.ts:33-39 | a language is `bash` or the fence's non-empty tag of `[\w-]` characters |
| MarkdownProperties.CodeBlockCode | src/lib/markdown.ts:33-40 | the code is already trimmed and never contains three backticks |
| MarkdownProperties.InnerHasNoFence | src/lib/markdown.ts:33 | the lazy inner group stops at the first closing fence |
| MarkdownProperties.CodeBlocksEmpty | src/lib/markdown.ts:37-53 | a step body has no code blocks exactly when no fence matches, for instance when a fence is never closed |
| MarkdownExamples.StepHeadingBecomesSection | src/lib/markdown.ts:17-73 | `"## A\n### B\n"` gives two sections, `A` with content `#` and `B` with empty content, and no steps |
| MarkdownExamples.TwoSectionMatches | src/lib/markdown.ts:17-20 | the section scan of that input finds `## A` and the `## B` inside `### B` |
| MarkdownExamples.SectionOfMatch | src/lib/markdown.ts:63-73 | a section of that input is its trimmed title, its rendered body and no steps |
| MarkdownExamples.FirstHeading | src/lib/markdown.ts:17 | the first section match of that input has title `A` and body `#` |
| MarkdownExamples.SecondHeading | src/lib/markdown.ts:17 | the second section match of that input has title `B` and an empty body |
| MarkdownScan.HeadingMatch | src/lib/markdown.ts:17-21 | a heading match: where it starts, its title and body groups, and where it ends, which is the next `lastIndex` |
| MarkdownScan.FenceMatch | src/lib/markdown.ts:33-37 | a fence match: where it starts, its tag and inner groups, and where it ends, which is the next `lastIndex` |
| MarkdownScan.BodyStart | src/lib/markdown.ts:17 | where a heading match's body group begins: after the marker, the title and the `\n` |
| MarkdownScan.HeadingAtIsMatch | src/lib/markdown.ts:17 | the heading matcher at one position returns exactly the pattern's match there, and returns nothing when no match starts there |
| MarkdownScan.TitleEndsAtLineEnd | src/lib/markdown.ts:17 | the lazy title ends at the first line terminator, which must be `\n` |
| MarkdownScan.FindHeadingLeftmost | src/lib/markdown.ts:20 | `exec` from `lastIndex` finds the leftmost heading match |
| MarkdownScan.ScanHeadingsOrdered | src/lib/markdown.ts:20 | the matches a global loop sees are genuine, in document order, and do not overlap |
| MarkdownScan.ScanHeadingsComplete | src/lib/markdown.ts:20 | no heading match is skipped: every position where the pattern matches starts or lies inside a scanned match |
| MarkdownScan.ScanHeadingsEmpty | src/lib/markdown.ts:20 | the heading scan is empty exactly when the pattern matches nowhere |
| MarkdownScan.BodyHasNoMarker | src/lib/markdown.ts:17 | a body never contains its own marker |
| MarkdownScan.SectionBodyHasNoStepMarker | src/lib/markdown.ts:17-25 | since `## ` lies inside `### `, a section body never contains `### ` |
| MarkdownScan.StepHeadingEndsPreviousBodyWithHash | src/lib/markdown.ts:17 | a `### ` heading ends the previous section one character in, leaving a trailing `#` in its body |
| MarkdownScan.FindHeading | src/lib/markdown.ts:20 | a match found from `lastIndex` starts at or after it and moves `lastIndex` forward |
| MarkdownScan.HeadingAt | src/lib/markdown.ts:17 | a match consumes at least the marker, one title character and the newline |
| MarkdownScan.LineEnd | src/lib/markdown.ts:17 | the first line terminator at or after a position, or the end of the text |
| MarkdownScan.LineEndIs | src/lib/markdown.ts:17 | a line terminator with none before it, from a position on, is where `LineEnd` stops |
| MarkdownScan.IsHeadingMatch | src/lib/markdown.ts:17 | defines a match of a heading pattern: the marker, a one-line non-empty title, `\n`, and a body up to the first later marker or the end; the same definition serves the step pattern at line 25 |
| MarkdownScan.IsFenceMatch | src/lib/markdown.ts:33 | defines a match of the fence pattern: three backticks, the run of `[\w-]` characters, `\n`, and the text up to the first closing three backticks |
| MarkdownScan.ScanHeadings | src/lib/markdown.ts:20 | defines the matches a global `exec` loop sees, each search starting where the last match ended; the step loop at line 28 is the same scan |
| MarkdownScan.ScanFences | src/lib/markdown.ts:37 | defines the fences the global `exec` loop sees, each search starting where the last fence ended |
| MarkdownScan.FenceAtIsMatch | src/lib/markdown.ts:33 | the fence matcher at one position returns exactly the pattern's match there, and returns nothing when no match starts there |
| MarkdownScan.FenceAtSound | src/lib/markdown.ts:33 | what the fence matcher returns is a match of the pattern |
| MarkdownScan.FenceMatchFound | src/lib/markdown.ts:33 | every match of the fence pattern is exactly what the matcher returns at its start |
| MarkdownScan.FenceMatchClosing | src/lib/markdown.ts:33 | the closing backticks of a match are the first ones after its opening line |
| MarkdownScan.FenceAtFrom | src/lib/markdown.ts:33 | once the tag run ends in `\n` and the first closing backticks are known, the matcher returns the tag, inner text and end they delimit |
| MarkdownScan.TagStopsAtTagEnd | src/lib/markdown.ts:33 | the tag group is the whole run of `[\w-]` characters after the backticks |
| MarkdownScan.IsTagChar | src/lib/markdown.ts:33 | defines the class `[\w-]`: an ASCII letter, digit, `_` or `-` |
| MarkdownScan.TagEnd | src/lib/markdown.ts:33 | the end of the run of `[\w-]` characters starting at a position |
| MarkdownScan.FenceAt | src/lib/markdown.ts:33 | a fence match consumes at least two triple backticks and the newline |
| MarkdownScan.FindFence | src/lib/markdown.ts:37 | a fence found from `lastIndex` starts at or after it and moves `lastIndex` forward |
| MarkdownScan.FindFenceLeftmost | src/lib/markdown.ts:37 | `exec` from `lastIndex` finds the leftmost fence match |
| MarkdownScan.ScanFencesOrdered | src/lib/markdown.ts:37 | the fences a global loop sees are genuine, in order, and do not overlap |
| MarkdownScan.ScanFencesComplete | src/lib/markdown.ts:37 | no fence match is skipped |
| MarkdownScan.ScanFencesEmpty | src/lib/markdown.ts:37 | the fence scan is empty exactly when the pattern matches nowhere |
| Text.IsLineTerminator | src/lib/markdown.ts:17 | defines the line terminators, the characters `.` does not match: `\n`, `\r`, U+2028 and U+2029 |
| Text.IsWhiteSpace | src/lib/markdown.ts:29-30 | defines what `trim` removes: the ECMAScript WhiteSpace and LineTerminator characters |
| Text.NoOccurrence | src/lib/markdown.ts:17-33 | defines a range of positions at none of which a pattern occurs, which the lazy groups need up to their stop |
| Text.At | src/lib/markdown.ts:17-33 | defines "the pattern occurs at this position", the test behind the markers, the lookahead and the closing fence |
| Text.AllWhiteSpace | src/lib/markdown.ts:29-30 | defines a string made only of what `trim` removes |
| Text.TrimStart | src/lib/markdown.ts:29-30 | removes the leading white space; `TrimStartCut` states exactly what it removes |
| Text.TrimEnd | src/lib/markdown.ts:29-30 | removes the trailing white space; `TrimEndCut` states exactly what it removes |
| Text.SliceOccurrence | src/lib/markdown.ts:33-37 | an occurrence inside a slice is an occurrence in the whole text, at the shifted position |
| Text.FirstOccurrence | src/lib/markdown.ts:17 | the body's lookahead first succeeds at the first later occurrence of the marker, or at the end |
| Text.FirstOccurrenceIs | src/lib/markdown.ts:17-33 | an occurrence with none before it is the first occurrence, where the lazy groups stop |
| Text.SplitHead | src/lib/markdown.ts:64 | `split(/### /)[0]` is the longest prefix without the separator, and it stops at the first occurrence |
| Text.TrimStartCut | src/lib/markdown.ts:29-30 | `trim` removes exactly the leading white space |
| Text.TrimEndCut | src/lib/markdown.ts:29-30 | `trim` removes exactly the trailing white space |
| Text.TrimmedEnds | src/lib/markdown.ts:29-30 | a trimmed string neither starts nor ends with white space |
| Text.TrimSlice | src/lib/markdown.ts:29-30 | a trimmed string is a slice of the original |
| Text.TrimOfTrimmed | src/lib/markdown.ts:40 | trimming a string without white space at either end changes nothing |
| Text.TrimIdempotent | src/lib/markdown.ts:40 | trimming twice is trimming once |
| Text.TrimCreatesNoOccurrence | src/lib/markdown.ts:30-40 | a pattern found in the trimmed text is found in the original |
| Text.LowerChar | src/app/page.tsx:226-230 | ASCII `toLowerCase` maps each capital to its own small letter and leaves every other character unchanged |
| Text.LowerCharIgnoresCase | src/app/page.tsx:226-230 | two characters lowercase alike exactly when they are equal or differ only in ASCII case |
| Text.LowerIdempotent | src/app/page.tsx:226-230 | lowercased text has no capitals, and lowercasing it again changes nothing |
| Text.LowerIgnoresCase | src/app/tools/page.tsx:226-227 | two strings lowercase alike exactly when they have the same length and differ only in ASCII case, so the search does not see case |
| Text.SameIgnoringCase | src/app/tools/page.tsx:226-227 | defines when two characters differ only in ASCII case, the reference for the lowercasing lemmas |
| Text.Lower | src/app/page.tsx:226-230 | `toLowerCase` maps every character and keeps the length |
| Text.Includes | src/app/page.tsx:228-230 | defines `includes`: the needle occurs at some position of the haystack |
| Text.Trim | src/lib/markdown.ts:29-30 | defines `trim` as removing leading, then trailing white space; its lemmas are the `Trim` rows |
| Text.IncludesEmpty | src/app/page.tsx:225-230 | every string includes the empty query |
| Text.IncludesSelf | src/app/page.tsx:228-230 | every string includes itself |
| Catalog.Tool | src/app/page.tsx:33-39 | the tool record: id, name, description and category; the icon is left out |
| Catalog.Filter | src/app/page.tsx:225 | `filter` keeps exactly the elements that pass, and never grows the list |
| Catalog.Embeds | src/app/page.tsx:225 | defines "the result is the subsequence of the list at these increasing positions", the order `filter` keeps |
| Catalog.FilterPositions | src/app/page.tsx:225-235 | `filter` keeps exactly the positions whose element passes, in their original order |
| Catalog.Both | src/app/page.tsx:237-241 | defines the test that passes exactly what both tests pass |
| Catalog.FilterTwice | src/app/page.tsx:237-241 | filtering twice is filtering once with both tests |
| Catalog.FilterKeepsAll | src/app/page.tsx:225 | a test every element passes leaves the list unchanged |
| Catalog.FilterSameTest | src/app/page.tsx:225 | two tests that agree on every element filter alike |
| Catalog.Distinct | src/app/page.tsx:183 | `Array.from(new Set(s))` has the same elements as `s`, without duplicates |
| Catalog.DistinctFirstAppearance | src/app/page.tsx:183 | `Array.from(new Set(s))` lists its elements in the order of their first appearance |
| Catalog.FirstIndex | src/app/page.tsx:183 | the first index at which an element occurs |
| Catalog.FirstIndexOfPrefix | src/app/page.tsx:183 | extending a list does not move an element's first occurrence |
| Catalog.CategoryField | src/app/page.tsx:183 | `tools.map((tool) => tool.category)` lists each tool's category at its index |
| Catalog.ToolCategories | src/app/page.tsx:183 | defines the category list as the distinct categories of the catalog in order |
| Catalog.ToolCategoriesListed | src/app/page.tsx:183 | a category is listed exactly when some tool has it |
| Catalog.ToolCategoriesOrder | src/app/page.tsx:183 | categories are listed in the order in which the catalog first uses them |
| HomePage.Shown | src/app/page.tsx:225-235 | defines the home page's test: the search test and the category test both pass |
| HomePage.ShownBy | src/app/page.tsx:225-235 | the home page's test as the callback passed to `filter` |
| HomePage.MatchesSearch | src/app/page.tsx:226-230 | defines the home search: the lowercased query occurs in the lowercased name, description or category |
| HomePage.MatchesCategory | src/app/page.tsx:233 | defines the home category test: no selection, the falsy empty string, or the tool's own category |
| HomePage.FilteredTools | src/app/page.tsx:225-235 | defines `filteredTools` as the catalog filtered by both tests |
| HomePage.FilteredToolsInOrder | src/app/page.tsx:225-235 | the home page shows exactly the tools that match the query in name, description or category and pass the category test, in catalog order |
| HomePage.EverythingShownInitially | src/app/page.tsx:217-235 | with the initial empty query and no selection, the whole catalog is shown |
| HomePage.EmptySelectionRestrictsNothing | src/app/page.tsx:233 | selecting the empty string, which is falsy, restricts nothing |
| HomePage.SelectionNarrows | src/app/page.tsx:225-235 | selecting a category narrows the unrestricted result to that category and keeps its order |
| HomePage.FoundByCategory | src/app/page.tsx:228-230 | with no category selected, a tool is always found by its own category name |
| HomePage.HasCategory | src/app/page.tsx:239-241 | defines the test `tool.category === category` |
| HomePage.InCategory | src/app/page.tsx:239-241 | defines `filteredTools.filter((tool) => tool.category === category)` |
| HomePage.GroupsBy | src/app/page.tsx:237-248 | defines the grouping the `reduce` must produce: one key per listed category that has a filtered tool, holding exactly its filtered tools in order |
| HomePage.ToolsByCategory | src/app/page.tsx:237-248 | the `reduce` gives a key for each listed category that has a filtered tool, holding exactly that category's filtered tools |
| HomePage.GroupsPartition | src/app/page.tsx:237-248 | the groups partition the filtered tools: each tool is in its own category's group, no group is empty, and there are no groups exactly when nothing is shown |
| HomePage.HomeGroupsPartition | src/app/page.tsx:183-248 | the home page's grouping partitions its filtered tools: each is in its own category's group, a group holds only filtered tools of its category, no group is empty, and there are no groups exactly when nothing is shown |
| HomePage.Toggle | src/app/page.tsx:318-321 | clicking the selected category deselects it, and clicking any other selects it |
| HomePage.ToggleTwice | src/app/page.tsx:318-321 | two clicks on a category leave it selected if it was, and nothing selected otherwise |
| HomePage.ClickSelectsCategory | src/app/page.tsx:318-321 | clicking an unselected category shows only that category's tools among those the query finds |
| HomePage.ClickAgainShowsAll | src/app/page.tsx:318-321 | clicking the selected category again shows what "All" shows |
| HomePage.HomeState.constructor | src/app/page.tsx:217-218 | the page starts with an empty query and no selection, and so shows the whole catalog |
| HomePage.HomeState.Visible | src/app/page.tsx:225-235 | defines `filteredTools` as a function of the page state: the catalog filtered by the current query and selection |
| HomePage.HomeState.OnSearch | src/app/page.tsx:298 | a search sets the query and keeps the selection |
| HomePage.HomeState.ClickAll | src/app/page.tsx:306 | "All" clears the selection and keeps the query |
| HomePage.HomeState.ClickCategory | src/app/page.tsx:318-321 | a category click toggles the selection and keeps the query; the page then shows that category's tools among those the query finds, or all of them after a second click on the same category |
| ToolsPage.Categories | src/app/tools/page.tsx:219-222 | the category list starts with "All" |
| ToolsPage.CategoriesOffered | src/app/tools/page.tsx:219-222 | the buttons offer "All" and exactly the catalog's categories |
| ToolsPage.Shown | src/app/tools/page.tsx:224-233 | defines the tools page's test: the search test and the category test both pass |
| ToolsPage.ShownBy | src/app/tools/page.tsx:224-233 | the tools page's test as the callback passed to `filter` |
| ToolsPage.MatchesSearch | src/app/tools/page.tsx:225-227 | defines the tools-page search: the lowercased query occurs in the lowercased name or description |
| ToolsPage.MatchesCategory | src/app/tools/page.tsx:229-230 | defines the tools-page category test: "All" or the tool's own category |
| ToolsPage.FilteredTools | src/app/tools/page.tsx:224-233 | defines `filteredTools` as the catalog filtered by both tests |
| ToolsPage.FilteredToolsInOrder | src/app/tools/page.tsx:224-233 | the tools page shows exactly the tools that match the query in name or description and pass the category test, in catalog order |
| ToolsPage.EverythingShownInitially | src/app/tools/page.tsx:211-233 | with the initial empty query and "All", the whole catalog is shown |
| ToolsPage.AllShadowsACategoryNamedAll | src/app/tools/page.tsx:229-230 | "All" lets every matching tool through, even tools of a category named "All" |
| ToolsPage.SelectionRestricts | src/app/tools/page.tsx:229-230 | any other selection shows only tools of that category |
| ToolsPage.NarrowerThanHomePage | src/app/tools/page.tsx:224-233 | over one shared catalog, under "All", the tools page shows the home page's unrestricted result minus the tools found only by their category |
| ToolsPage.CategoryNotSearchedAll | src/app/tools/page.tsx:225-227 | over one shared catalog, a tool the home page finds by its category alone is missing on the tools page, whatever the selection |
| ToolsPage.CategoryNotSearched | src/app/tools/page.tsx:225-227 | the case occurs: over one shared catalog, a tool whose category alone mentions the query is found on the home page and not on the tools page |
| ToolsPage.ToolsPageState.constructor | src/app/tools/page.tsx:211-212 | the page starts with an empty query and "All", and so shows the whole catalog |
| ToolsPage.ToolsPageState.Visible | src/app/tools/page.tsx:224-233 | defines `filteredTools` as a function of the page state: the catalog filtered by the current query and selection |
| ToolsPage.ToolsPageState.OnSearch | src/app/tools/page.tsx:280 | a search sets the query and keeps the selection |
| ToolsPage.ToolsPageState.ClickCategory | src/app/tools/page.tsx:298 | a click always selects its category, even the one already selected, and keeps the query |

## Left out

- The remark HTML rendering (`remark().use(html).process`) is a foreign library. It is a function parameter `render`, and the `async`/`await` around it is not modelled. `render` is total, so a rejected `process` promise, which makes the whole `parseMarkdownSections` call reject, cannot occur in the model.
- Only the three regular expressions of the parser are modelled, as hand-written scanners. There is no general regex engine.
- `toLowerCase` is modelled for ASCII only. Full Unicode case mapping, including characters whose lower case has a different length, is not modelled.
- Strings are sequences of Dafny `char`, which are Unicode scalar values, while JavaScript strings hold UTF-16 code units. A character outside the Basic Multilingual Plane is one `char` here but two code units in JavaScript, and a lone surrogate cannot be represented at all.
- HomePage.ToolsByCategory: the result is a map, so the key order that `Object.entries` would show is not modelled. That order is the insertion order of `categories`, except that integer-like category names such as `"2"` come first, in ascending numeric order.
- HomePage.ToolsByCategory: a category named `__proto__` is assumed to behave like any other. In JavaScript, `acc[category] = categoryTools` on a plain object would set the object's prototype instead of adding a key, and `Object.entries` would then show no group for it.
- The catalog's contents (the literal `tools` arrays) and the icon components are data, not logic. The lemmas hold for any catalog, except for the `__proto__` category named above.
- JSX rendering, framer-motion animation, the floating icons driven by `Math.random`, and the `mounted` flag set by `useEffect` are presentation and are not modelled.
- The debouncing inside the `Search` component is not modelled. A search is the value the component reports.
- Copy-to-clipboard and the progress tracker of the guide pages are UI components outside this model.
