/** Character classes and string operations shared by the markdown parser and the
    catalog pages: JavaScript's `trim`, `includes`, ASCII `toLowerCase`, and
    "first occurrence" searches.  A Dafny `char` is a Unicode scalar value, where
    JavaScript strings hold UTF-16 code units: a character outside the Basic
    Multilingual Plane is one `char` here but two code units there, and a lone
    surrogate cannot be represented. */
module Wrappers {
  datatype Option<+T> = None | Some(value: T)
}

module Text {

  /** LineTerminator of ECMAScript: the characters `.` in a regex does not match. */
  predicate IsLineTerminator(c: char) {
    c == '\n' || c == '\r' || c == '\U{2028}' || c == '\U{2029}'
  }

  /** WhiteSpace and LineTerminator of ECMAScript: what `String.prototype.trim` removes.
      The space separators are the Unicode category Zs, written out. */
  predicate IsWhiteSpace(c: char) {
    || IsLineTerminator(c)
    || c == '\t' || c == '\U{000B}' || c == '\U{000C}' || c == ' '
    || c == '\U{00A0}' || c == '\U{FEFF}' || c == '\U{1680}'
    || ('\U{2000}' <= c <= '\U{200A}')
    || c == '\U{202F}' || c == '\U{205F}' || c == '\U{3000}'
  }

  predicate AllWhiteSpace(s: string) {
    forall k {:trigger IsWhiteSpace(s[k])} :: 0 <= k < |s| ==> IsWhiteSpace(s[k])
  }

  /** `pat` occurs in `s` starting at index `i`. */
  predicate At(s: string, i: nat, pat: string) {
    i + |pat| <= |s| && s[i..i + |pat|] == pat
  }

  /** `hay.includes(needle)`. */
  predicate Includes(hay: string, needle: string) {
    exists i: nat | i <= |hay| :: At(hay, i, needle)
  }

  /** The first index `j >= i` at which `pat` occurs, or `|s|` when there is none:
      the position where a lookahead `(?=pat|$)` first succeeds. */
  function FirstOccurrence(s: string, i: nat, pat: string): (j: nat)
    requires i <= |s|
    ensures i <= j <= |s|
    ensures j == |s| || At(s, j, pat)
    ensures forall k :: i <= k < j ==> !At(s, k, pat)
    decreases |s| - i
  {
    if i == |s| || At(s, i, pat) then i else FirstOccurrence(s, i + 1, pat)
  }

  /** `pat` occurs at no index in `[i, j)`. */
  predicate NoOccurrence(s: string, i: nat, j: nat, pat: string) {
    forall k :: i <= k < j ==> !At(s, k, pat)
  }

  /** An occurrence with none before it, from `i` on, is the first occurrence. */
  lemma {:induction false} FirstOccurrenceIs(s: string, i: nat, j: nat, pat: string)
    requires i <= j <= |s| && (j == |s| || At(s, j, pat))
    requires NoOccurrence(s, i, j, pat)
    ensures FirstOccurrence(s, i, pat) == j
    decreases j - i
  {
    if i < j {
      FirstOccurrenceIs(s, i + 1, j, pat);
    }
  }

  /** `s.split(sep)[0]`: the text before the first occurrence of `sep`. */
  function SplitHead(s: string, sep: string): (r: string)
    ensures |r| <= |s| && r == s[..|r|]
    ensures r == s || At(s, |r|, sep)
    ensures forall k :: 0 <= k < |r| ==> !At(s, k, sep)
  {
    s[..FirstOccurrence(s, 0, sep)]
  }

  /** Removes leading white space. */
  function TrimStart(s: string): (r: string)
    ensures |r| <= |s|
  {
    if |s| > 0 && IsWhiteSpace(s[0]) then TrimStart(s[1..]) else s
  }

  /** `TrimStart` cuts a prefix of white space and stops at the first other character. */
  lemma {:induction false} TrimStartCut(s: string)
    ensures var r := TrimStart(s);
            && r == s[|s| - |r|..]
            && AllWhiteSpace(s[..|s| - |r|])
            && (r == [] || !IsWhiteSpace(r[0]))
  {
    if |s| > 0 && IsWhiteSpace(s[0]) {
      var r := TrimStart(s[1..]);
      TrimStartCut(s[1..]);
      assert s[..|s| - |r|] == [s[0]] + s[1..][..|s| - 1 - |r|];
      assert s[1..][|s| - 1 - |r|..] == s[|s| - |r|..];
    }
  }

  /** Removes trailing white space. */
  function TrimEnd(s: string): (r: string)
    ensures |r| <= |s|
  {
    if |s| > 0 && IsWhiteSpace(s[|s| - 1]) then TrimEnd(s[..|s| - 1]) else s
  }

  /** `TrimEnd` cuts a suffix of white space and stops at the last other character. */
  lemma {:induction false} TrimEndCut(s: string)
    ensures var r := TrimEnd(s);
            && r == s[..|r|]
            && AllWhiteSpace(s[|r|..])
            && (r == [] || !IsWhiteSpace(r[|r| - 1]))
  {
    if |s| > 0 && IsWhiteSpace(s[|s| - 1]) {
      var r := TrimEnd(s[..|s| - 1]);
      TrimEndCut(s[..|s| - 1]);
      assert s[|r|..] == s[..|s| - 1][|r|..] + [s[|s| - 1]];
      assert s[..|s| - 1][..|r|] == s[..|r|];
    }
  }

  /** `String.prototype.trim`: white space removed at both ends. */
  function Trim(s: string): (r: string)
    ensures |r| <= |s|
  {
    TrimEnd(TrimStart(s))
  }

  /** What `trim` leaves neither starts nor ends with white space. */
  lemma TrimmedEnds(s: string)
    ensures Trim(s) == [] || (!IsWhiteSpace(Trim(s)[0]) && !IsWhiteSpace(Trim(s)[|Trim(s)| - 1]))
  {
    var t := TrimStart(s);
    var r := TrimEnd(t);
    TrimStartCut(s);
    TrimEndCut(t);
    if r != [] {
      assert r[0] == t[0];
    }
  }

  /** What `trim` leaves is one slice of its input, with only white space around it. */
  lemma TrimSlice(s: string) returns (i: nat, j: nat)
    ensures i <= j <= |s| && Trim(s) == s[i..j]
    ensures AllWhiteSpace(s[..i]) && AllWhiteSpace(s[j..])
  {
    var t := TrimStart(s);
    var r := TrimEnd(t);
    TrimStartCut(s);
    TrimEndCut(t);
    i := |s| - |t|;
    j := i + |r|;
    assert s[j..] == t[|r|..];
  }

  /** A string whose ends are not white space is its own trim. */
  lemma {:induction false} TrimOfTrimmed(s: string)
    requires s == [] || (!IsWhiteSpace(s[0]) && !IsWhiteSpace(s[|s| - 1]))
    ensures Trim(s) == s
  {
    assert TrimStart(s) == s;
    assert TrimEnd(s) == s;
  }

  /** `trim` is idempotent. */
  lemma TrimIdempotent(s: string)
    ensures Trim(Trim(s)) == Trim(s)
  {
    TrimmedEnds(s);
    TrimOfTrimmed(Trim(s));
  }

  /** Trimming never creates an occurrence: a pattern found at `k` in the trimmed
      text is found at `i + k` in the original, where `i` is the white space cut. */
  lemma TrimCreatesNoOccurrence(s: string, pat: string, k: nat) returns (i: nat)
    requires At(Trim(s), k, pat)
    ensures i + k <= |s| && At(s, i + k, pat)
  {
    var j;
    i, j := TrimSlice(s);
    SliceOccurrence(s, i, j, pat, k);
  }

  /** An occurrence in a slice is an occurrence in the whole string. */
  lemma SliceOccurrence(s: string, i: nat, j: nat, pat: string, k: nat)
    requires i <= j <= |s| && At(s[i..j], k, pat)
    ensures i + k <= |s| && At(s, i + k, pat)
  {
    var t := s[i..j];
    forall m | 0 <= m < |pat|
      ensures s[i + k + m] == pat[m]
    {
      assert t[k + m] == s[i + k + m];
    }
    assert s[i + k..i + k + |pat|] == pat;
  }

  /** ASCII `toLowerCase`. */
  function LowerChar(c: char): (d: char)
    ensures 'A' <= c <= 'Z' ==> d as int == c as int - 'A' as int + 'a' as int
    ensures !('A' <= c <= 'Z') ==> d == c
  {
    if 'A' <= c <= 'Z' then (c as int - 'A' as int + 'a' as int) as char else c
  }

  function Lower(s: string): (r: string)
    ensures |r| == |s|
    ensures forall k :: 0 <= k < |s| ==> r[k] == LowerChar(s[k])
  {
    seq(|s|, k requires 0 <= k < |s| => LowerChar(s[k]))
  }

  /** Two characters that are equal or are the capital and the small form of
      one ASCII letter. */
  predicate SameIgnoringCase(c: char, d: char) {
    || c == d
    || ('A' <= c <= 'Z' && d as int == c as int + 32)
    || ('A' <= d <= 'Z' && c as int == d as int + 32)
  }

  /** Lowercasing identifies exactly the characters that differ only in ASCII case. */
  lemma LowerCharIgnoresCase(c: char, d: char)
    ensures LowerChar(c) == LowerChar(d) <==> SameIgnoringCase(c, d)
  {
  }

  /** Lowercased text has no capitals, and lowercasing it again changes nothing. */
  lemma LowerIdempotent(s: string)
    ensures forall k :: 0 <= k < |Lower(s)| ==> !('A' <= Lower(s)[k] <= 'Z')
    ensures Lower(Lower(s)) == Lower(s)
  {
  }

  /** Strings that differ only in ASCII case lowercase alike, so a search on the
      lowercased text does not see case. */
  lemma LowerIgnoresCase(s: string, t: string)
    ensures Lower(s) == Lower(t)
            <==> |s| == |t| && forall k :: 0 <= k < |s| ==> SameIgnoringCase(s[k], t[k])
  {
    if |s| == |t| {
      forall k | 0 <= k < |s|
        ensures Lower(s)[k] == Lower(t)[k] <==> SameIgnoringCase(s[k], t[k])
      {
        LowerCharIgnoresCase(s[k], t[k]);
      }
    }
  }

  /** Every string includes the empty string. */
  lemma IncludesEmpty(hay: string)
    ensures Includes(hay, "")
  {
    assert At(hay, 0, "");
  }

  /** A string includes itself, so a tool is found by its own name. */
  lemma IncludesSelf(s: string)
    ensures Includes(s, s)
  {
    assert At(s, 0, s);
  }
}
