/** Hand-written scanners equivalent to the three global regular expressions of
    `parseMarkdownSections` (src/lib/markdown.ts), run without the `m` flag:

      sections  /## (.+?)\n([\s\S]*?)(?=## |$)/g
      steps     /### (.+?)\n([\s\S]*?)(?=### |$)/g
      fences    /```([\w-]*)\n([\s\S]*?)```/g

    The first two differ only in their marker, so one heading scanner serves both.
    For each pattern there is a declarative description of a match (`IsHeadingMatch`,
    `IsFenceMatch`), a function that tries the pattern at one position, the leftmost
    search that `RegExp.prototype.exec` performs from `lastIndex`, and the sequence
    of all matches a `while (exec(...) !== null)` loop sees. */
module MarkdownScan {
  import opened Wrappers
  import opened Text

  const SectionMarker := "## "
  const StepMarker := "### "
  const FenceMarker := "```"

  /** One match of a heading pattern: `title` is group 1, `body` group 2, and
      `end` the `lastIndex` the regex is left at. */
  datatype HeadingMatch = HeadingMatch(start: nat, title: string, body: string, end: nat)

  /** One match of the fence pattern: `tag` is group 1, `inner` group 2. */
  datatype FenceMatch = FenceMatch(start: nat, tag: string, inner: string, end: nat)

  function BodyStart(m: HeadingMatch, marker: string): nat {
    m.start + |marker| + |m.title| + 1
  }

  /** What it means for the heading pattern with `marker` to match `s` as `m`:
      the marker; a non-empty title free of line terminators (`.+?`) followed by a
      newline; and a body that runs, lazily, to the first later marker or to the end. */
  ghost predicate IsHeadingMatch(s: string, m: HeadingMatch, marker: string) {
    var b := BodyStart(m, marker);
    && At(s, m.start, marker)
    && |m.title| >= 1
    && (forall k {:trigger IsLineTerminator(m.title[k])} :: 0 <= k < |m.title| ==> !IsLineTerminator(m.title[k]))
    && b <= m.end <= |s|
    && s[m.start + |marker|..b - 1] == m.title
    && s[b - 1] == '\n'
    && s[b..m.end] == m.body
    && (m.end == |s| || At(s, m.end, marker))
    && (forall k :: b <= k < m.end ==> !At(s, k, marker))
  }

  /** First index `j >= i` that is a line terminator, or `|s|`. */
  function LineEnd(s: string, i: nat): (j: nat)
    requires i <= |s|
    ensures i <= j <= |s|
    ensures j == |s| || IsLineTerminator(s[j])
    ensures forall k {:trigger IsLineTerminator(s[k])} :: i <= k < j ==> !IsLineTerminator(s[k])
    decreases |s| - i
  {
    if i == |s| || IsLineTerminator(s[i]) then i else LineEnd(s, i + 1)
  }

  /** The heading pattern tried at position `p` alone.  A match consumes at least
      the marker, one title character and the newline. */
  function HeadingAt(s: string, p: nat, marker: string): (r: Option<HeadingMatch>)
    requires p <= |s|
    ensures r.Some? ==> r.value.start == p && p + |marker| + 2 <= r.value.end <= |s|
  {
    if !At(s, p, marker) then None
    else
      var e := LineEnd(s, p + |marker|);
      if e == p + |marker| || e == |s| || s[e] != '\n' then None
      else
        var b := FirstOccurrence(s, e + 1, marker);
        Some(HeadingMatch(p, s[p + |marker|..e], s[e + 1..b], b))
  }

  /** `HeadingAt` is exactly the regex: what it returns is a match, and when it
      returns nothing there is no match at that position. */
  lemma HeadingAtIsMatch(s: string, p: nat, marker: string)
    requires p <= |s|
    ensures HeadingAt(s, p, marker).Some? ==> IsHeadingMatch(s, HeadingAt(s, p, marker).value, marker)
    ensures HeadingAt(s, p, marker).None?
            ==> forall m: HeadingMatch :: m.start == p ==> !IsHeadingMatch(s, m, marker)
  {
    if HeadingAt(s, p, marker).None? {
      forall m: HeadingMatch | m.start == p && IsHeadingMatch(s, m, marker)
        ensures false
      {
        TitleEndsAtLineEnd(s, m, marker);
      }
    }
  }

  /** The title of a heading match stops at the first line terminator after the marker. */
  lemma TitleEndsAtLineEnd(s: string, m: HeadingMatch, marker: string)
    requires IsHeadingMatch(s, m, marker)
    ensures BodyStart(m, marker) - 1 == LineEnd(s, m.start + |marker|)
  {
    var t := m.start + |marker|;
    forall k | t <= k < BodyStart(m, marker) - 1
      ensures !IsLineTerminator(s[k])
    {
      assert s[k] == m.title[k - t];
    }
    LineEndIs(s, t, BodyStart(m, marker) - 1);
  }

  /** The first line terminator at or after `i` is `LineEnd(s, i)`. */
  lemma {:induction false} LineEndIs(s: string, i: nat, j: nat)
    requires i <= j < |s| && IsLineTerminator(s[j])
    requires forall k :: i <= k < j ==> !IsLineTerminator(s[k])
    ensures LineEnd(s, i) == j
    decreases j - i
  {
    if i < j {
      LineEndIs(s, i + 1, j);
    }
  }

  /** `exec` from `lastIndex = from`: the leftmost heading match starting at or after `from`. */
  function FindHeading(s: string, from: nat, marker: string): (r: Option<HeadingMatch>)
    requires from <= |s|
    ensures r.Some? ==> from <= r.value.start && r.value.start + |marker| + 2 <= r.value.end <= |s|
    decreases |s| - from
  {
    var here := HeadingAt(s, from, marker);
    if here.Some? || from == |s| then here else FindHeading(s, from + 1, marker)
  }

  /** `FindHeading` finds the leftmost match: what it returns is the pattern's match
      at that position, and the pattern matches at no earlier position. */
  lemma {:induction false} FindHeadingLeftmost(s: string, from: nat, marker: string)
    requires from <= |s|
    ensures var r := FindHeading(s, from, marker);
            && (r.Some? ==> HeadingAt(s, r.value.start, marker) == r)
            && forall p :: from <= p <= |s| && (r.None? || p < r.value.start)
                           ==> HeadingAt(s, p, marker).None?
    decreases |s| - from
  {
    if HeadingAt(s, from, marker).None? && from < |s| {
      FindHeadingLeftmost(s, from + 1, marker);
    }
  }

  /** Every match a global `exec` loop sees, starting from `lastIndex = from`. */
  function ScanHeadings(s: string, from: nat, marker: string): (r: seq<HeadingMatch>)
    requires from <= |s|
    decreases |s| - from
  {
    match FindHeading(s, from, marker)
    case None => []
    case Some(m) => [m] + ScanHeadings(s, m.end, marker)
  }

  /** The matches of a scan are genuine and come in document order without overlap:
      the `i`-th match is what the pattern finds at its start, and it ends no later
      than the next one starts. */
  lemma {:induction false} ScanHeadingsOrdered(s: string, from: nat, marker: string, i: nat)
    requires from <= |s|
    requires i < |ScanHeadings(s, from, marker)|
    ensures var r := ScanHeadings(s, from, marker);
            && from <= r[i].start <= |s|
            && HeadingAt(s, r[i].start, marker) == Some(r[i])
            && (i + 1 < |r| ==> r[i].end <= r[i + 1].start)
    decreases |s| - from
  {
    var m := FindHeading(s, from, marker).value;
    var rest := ScanHeadings(s, m.end, marker);
    assert ScanHeadings(s, from, marker) == [m] + rest;
    if i == 0 {
      FindHeadingLeftmost(s, from, marker);
      if |rest| > 0 {
        ScanHeadingsOrdered(s, m.end, marker, 0);
      }
    } else {
      ScanHeadingsOrdered(s, m.end, marker, i - 1);
    }
  }

  /** No match is skipped: every position where the pattern matches is either the
      start of a scanned match or lies inside one (consumed by it), and no match
      starts before the first scanned one. */
  lemma {:induction false} ScanHeadingsComplete(s: string, from: nat, marker: string, p: nat) returns (i: nat)
    requires from <= p <= |s|
    requires HeadingAt(s, p, marker).Some?
    ensures i < |ScanHeadings(s, from, marker)|
    ensures ScanHeadings(s, from, marker)[i].start <= p < ScanHeadings(s, from, marker)[i].end
    decreases |s| - from
  {
    FindHeadingLeftmost(s, from, marker);
    var m := FindHeading(s, from, marker).value;
    var rest := ScanHeadings(s, m.end, marker);
    assert ScanHeadings(s, from, marker) == [m] + rest;
    if p < m.end {
      i := 0;
    } else {
      var j := ScanHeadingsComplete(s, m.end, marker, p);
      i := j + 1;
    }
  }

  /** The scan is empty exactly when the pattern matches nowhere from `from` on. */
  lemma {:induction false} ScanHeadingsEmpty(s: string, from: nat, marker: string)
    requires from <= |s|
    ensures ScanHeadings(s, from, marker) == []
            <==> forall p :: from <= p <= |s| ==> HeadingAt(s, p, marker).None?
  {
    FindHeadingLeftmost(s, from, marker);
    if ScanHeadings(s, from, marker) == [] {
      assert FindHeading(s, from, marker).None?;
    } else {
      var m := FindHeading(s, from, marker).value;
      assert HeadingAt(s, m.start, marker).Some?;
    }
  }

  /** A body never contains its own marker. */
  lemma BodyHasNoMarker(s: string, m: HeadingMatch, marker: string, k: nat)
    requires |marker| > 0 && IsHeadingMatch(s, m, marker)
    ensures !At(m.body, k, marker)
  {
    var b := BodyStart(m, marker);
    if At(m.body, k, marker) {
      assert s[b + k..b + k + |marker|] == m.body[k..k + |marker|];
      assert At(s, b + k, marker);
    }
  }

  /** Since "## " is a substring of "### ", a section body never contains "### ". */
  lemma SectionBodyHasNoStepMarker(s: string, m: HeadingMatch, k: nat)
    requires IsHeadingMatch(s, m, SectionMarker)
    ensures !At(m.body, k, StepMarker)
  {
    if At(m.body, k, StepMarker) {
      assert m.body[k + 1..k + 4] == StepMarker[1..];
      assert At(m.body, k + 1, SectionMarker);
      BodyHasNoMarker(s, m, SectionMarker, k + 1);
    }
  }

  /** A deeper heading `### X` seen by the section pattern: its last two `#`s and the
      space open a section, so the section before it ends with a stray `#`. */
  lemma StepHeadingEndsPreviousBodyWithHash(s: string, m: HeadingMatch, q: nat)
    requires IsHeadingMatch(s, m, SectionMarker)
    requires BodyStart(m, SectionMarker) <= q && At(s, q, StepMarker)
    requires forall k :: BodyStart(m, SectionMarker) <= k <= q ==> !At(s, k, SectionMarker)
    ensures m.end == q + 1
    ensures |m.body| >= 1 && m.body[|m.body| - 1] == '#'
  {
    assert s[q + 1..q + 4] == StepMarker[1..];
    assert At(s, q + 1, SectionMarker);
    assert s[q] == '#';
  }

  // ---------------------------------------------------------------------------
  // Fences

  /** `[\w-]`: an ASCII letter, digit, underscore or hyphen. */
  predicate IsTagChar(c: char) {
    ('A' <= c <= 'Z') || ('a' <= c <= 'z') || ('0' <= c <= '9') || c == '_' || c == '-'
  }

  /** What it means for the fence pattern to match `s` as `m`: three backticks, a
      tag of `[\w-]` characters, a newline, and an inner text that stops at the
      first following three backticks. */
  ghost predicate IsFenceMatch(s: string, m: FenceMatch) {
    var t := m.start + 3 + |m.tag|;
    var c := t + 1 + |m.inner|;
    && At(s, m.start, FenceMarker)
    && (forall k {:trigger IsTagChar(m.tag[k])} :: 0 <= k < |m.tag| ==> IsTagChar(m.tag[k]))
    && m.end == c + 3
    && At(s, c, FenceMarker)
    && s[m.start + 3..t] == m.tag
    && s[t] == '\n'
    && s[t + 1..c] == m.inner
    && NoOccurrence(s, t + 1, c, FenceMarker)
  }

  /** First index `j >= i` that is not a tag character, or `|s|`: where the greedy
      `[\w-]*` stops. */
  function TagEnd(s: string, i: nat): (j: nat)
    requires i <= |s|
    ensures i <= j <= |s|
    ensures j == |s| || !IsTagChar(s[j])
    ensures forall k {:trigger IsTagChar(s[k])} :: i <= k < j ==> IsTagChar(s[k])
    decreases |s| - i
  {
    if i == |s| || !IsTagChar(s[i]) then i else TagEnd(s, i + 1)
  }

  /** The fence pattern tried at position `p` alone.  A match consumes at least
      the two runs of backticks and the newline. */
  function FenceAt(s: string, p: nat): (r: Option<FenceMatch>)
    requires p <= |s|
    ensures r.Some? ==> r.value.start == p && p + 7 <= r.value.end <= |s|
  {
    if !At(s, p, FenceMarker) then None
    else
      var t := TagEnd(s, p + 3);
      if t == |s| || s[t] != '\n' then None
      else
        var c := FirstOccurrence(s, t + 1, FenceMarker);
        if c == |s| then None
        else Some(FenceMatch(p, s[p + 3..t], s[t + 1..c], c + 3))
  }

  /** `FenceAt` is exactly the regex: what it returns is a match, and when it
      returns nothing there is no match at that position (in particular when no
      closing backticks follow). */
  lemma FenceAtIsMatch(s: string, p: nat)
    requires p <= |s|
    ensures FenceAt(s, p).Some? ==> IsFenceMatch(s, FenceAt(s, p).value)
    ensures FenceAt(s, p).None? ==> forall m: FenceMatch :: m.start == p ==> !IsFenceMatch(s, m)
  {
    if FenceAt(s, p).Some? {
      FenceAtSound(s, p);
    } else {
      forall m: FenceMatch | m.start == p && IsFenceMatch(s, m)
        ensures false
      {
        FenceMatchFound(s, m);
      }
    }
  }

  /** What `FenceAt` returns satisfies the pattern. */
  lemma FenceAtSound(s: string, p: nat)
    requires p <= |s| && FenceAt(s, p).Some?
    ensures IsFenceMatch(s, FenceAt(s, p).value)
  {
    var m := FenceAt(s, p).value;
    var t := TagEnd(s, p + 3);
    forall k | 0 <= k < |m.tag|
      ensures IsTagChar(m.tag[k])
    {
      assert m.tag[k] == s[p + 3 + k];
    }
  }

  /** Every match of the fence pattern is the one `FenceAt` finds at its start. */
  lemma FenceMatchFound(s: string, m: FenceMatch)
    requires IsFenceMatch(s, m)
    ensures FenceAt(s, m.start) == Some(m)
  {
    var t := m.start + 3 + |m.tag|;
    var c := t + 1 + |m.inner|;
    TagStopsAtTagEnd(s, m);
    FenceMatchClosing(s, m);
    FenceAtFrom(s, m.start, t, c);
    assert FenceMatch(m.start, s[m.start + 3..t], s[t + 1..c], c + 3) == m;
  }

  /** The closing backticks of a fence match are the first ones after its opening line. */
  lemma FenceMatchClosing(s: string, m: FenceMatch)
    requires IsFenceMatch(s, m)
    ensures FirstOccurrence(s, m.start + 3 + |m.tag| + 1, FenceMarker) == m.start + 3 + |m.tag| + 1 + |m.inner|
  {
    var t := m.start + 3 + |m.tag|;
    FirstOccurrenceIs(s, t + 1, t + 1 + |m.inner|, FenceMarker);
  }

  /** `FenceAt` at `p` once its tag run ends at `t` with a newline and the first
      closing backticks after it are at `c`. */
  lemma FenceAtFrom(s: string, p: nat, t: nat, c: nat)
    requires At(s, p, FenceMarker) && p + 3 <= t < c < |s|
    requires TagEnd(s, p + 3) == t && s[t] == '\n' && FirstOccurrence(s, t + 1, FenceMarker) == c
    ensures FenceAt(s, p) == Some(FenceMatch(p, s[p + 3..t], s[t + 1..c], c + 3))
  {
  }

  /** The tag of a fence match is the whole run of tag characters after the backticks. */
  lemma TagStopsAtTagEnd(s: string, m: FenceMatch)
    requires IsFenceMatch(s, m)
    ensures m.start + 3 + |m.tag| == TagEnd(s, m.start + 3)
  {
    var t := m.start + 3;
    var e := t + |m.tag|;
    forall k | t <= k < e
      ensures IsTagChar(s[k])
    {
      assert s[k] == m.tag[k - t];
    }
    assert !IsTagChar(s[e]);
  }

  /** `exec` from `lastIndex = from`: the leftmost fence match starting at or after `from`. */
  function FindFence(s: string, from: nat): (r: Option<FenceMatch>)
    requires from <= |s|
    ensures r.Some? ==> from <= r.value.start && r.value.start + 7 <= r.value.end <= |s|
    decreases |s| - from
  {
    var here := FenceAt(s, from);
    if here.Some? || from == |s| then here else FindFence(s, from + 1)
  }

  /** `FindFence` finds the leftmost fence. */
  lemma {:induction false} FindFenceLeftmost(s: string, from: nat)
    requires from <= |s|
    ensures var r := FindFence(s, from);
            && (r.Some? ==> FenceAt(s, r.value.start) == r)
            && forall p :: from <= p <= |s| && (r.None? || p < r.value.start)
                           ==> FenceAt(s, p).None?
    decreases |s| - from
  {
    if FenceAt(s, from).None? && from < |s| {
      FindFenceLeftmost(s, from + 1);
    }
  }

  /** Every fence a global `exec` loop sees, starting from `lastIndex = from`. */
  function ScanFences(s: string, from: nat): (r: seq<FenceMatch>)
    requires from <= |s|
    decreases |s| - from
  {
    match FindFence(s, from)
    case None => []
    case Some(m) => [m] + ScanFences(s, m.end)
  }

  /** Fences come out genuine, in order and without overlap. */
  lemma {:induction false} ScanFencesOrdered(s: string, from: nat, i: nat)
    requires from <= |s|
    requires i < |ScanFences(s, from)|
    ensures var r := ScanFences(s, from);
            && from <= r[i].start <= |s|
            && FenceAt(s, r[i].start) == Some(r[i])
            && (i + 1 < |r| ==> r[i].end <= r[i + 1].start)
    decreases |s| - from
  {
    var m := FindFence(s, from).value;
    var rest := ScanFences(s, m.end);
    assert ScanFences(s, from) == [m] + rest;
    if i == 0 {
      FindFenceLeftmost(s, from);
      if |rest| > 0 {
        ScanFencesOrdered(s, m.end, 0);
      }
    } else {
      ScanFencesOrdered(s, m.end, i - 1);
    }
  }

  /** No fence is skipped: every position where the fence pattern matches is the
      start of a scanned fence or lies inside one. */
  lemma {:induction false} ScanFencesComplete(s: string, from: nat, p: nat) returns (i: nat)
    requires from <= p <= |s|
    requires FenceAt(s, p).Some?
    ensures i < |ScanFences(s, from)|
    ensures ScanFences(s, from)[i].start <= p < ScanFences(s, from)[i].end
    decreases |s| - from
  {
    FindFenceLeftmost(s, from);
    var m := FindFence(s, from).value;
    var rest := ScanFences(s, m.end);
    assert ScanFences(s, from) == [m] + rest;
    if p < m.end {
      i := 0;
    } else {
      var j := ScanFencesComplete(s, m.end, p);
      i := j + 1;
    }
  }

  /** The fence scan is empty exactly when the pattern matches nowhere from `from`
      on; an opening fence with no closing backticks after it is such a case. */
  lemma {:induction false} ScanFencesEmpty(s: string, from: nat)
    requires from <= |s|
    ensures ScanFences(s, from) == [] <==> forall p :: from <= p <= |s| ==> FenceAt(s, p).None?
  {
    FindFenceLeftmost(s, from);
    if ScanFences(s, from) == [] {
      assert FindFence(s, from).None?;
    } else {
      var m := FindFence(s, from).value;
      assert FenceAt(s, m.start).Some?;
    }
  }
}
