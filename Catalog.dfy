/** The tool catalog shared by the two catalog pages (src/app/page.tsx and
    src/app/tools/page.tsx): the `Tool` record and the two list operations both
    pages are built from, `Array.prototype.filter` and the de-duplication
    `Array.from(new Set(xs))`. */
module Catalog {

  /** A catalog entry; the icon component is presentation and is not modelled. */
  datatype Tool = Tool(id: string, name: string, description: string, category: string)

  // ---------------------------------------------------------------------------
  // filter

  /** `s.filter(keep)`: the elements that pass, in their original order. */
  function Filter<T(!new)>(s: seq<T>, keep: T -> bool): (r: seq<T>)
    ensures |r| <= |s|
    ensures forall x :: x in r <==> x in s && keep(x)
  {
    if s == [] then []
    else
      var init := s[..|s| - 1];
      assert s == init + [s[|s| - 1]];
      if keep(s[|s| - 1]) then Filter(init, keep) + [s[|s| - 1]] else Filter(init, keep)
  }

  /** `idx` picks `r` out of `s` in order: `r` is an order-preserving subsequence of `s`. */
  predicate Embeds<T(==)>(r: seq<T>, s: seq<T>, idx: seq<nat>) {
    && |idx| == |r|
    && (forall i :: 0 <= i < |idx| ==> idx[i] < |s| && r[i] == s[idx[i]])
    && (forall i, j :: 0 <= i < j < |idx| ==> idx[i] < idx[j])
  }

  /** `filter` keeps exactly the positions whose element passes, in order: the
      result is the subsequence of `s` at those positions. */
  lemma {:induction false} FilterPositions<T(!new)>(s: seq<T>, keep: T -> bool) returns (idx: seq<nat>)
    ensures Embeds(Filter(s, keep), s, idx)
    ensures forall k :: 0 <= k < |s| ==> (keep(s[k]) <==> k in idx)
  {
    if s == [] {
      idx := [];
    } else {
      var n := |s| - 1;
      var init := s[..n];
      var idx' := FilterPositions(init, keep);
      if keep(s[n]) {
        idx := idx' + [n];
        EmbedsExtend(Filter(init, keep), s, idx');
      } else {
        idx := idx';
        EmbedsWiden(Filter(init, keep), s, idx');
      }
      forall k | 0 <= k < |s|
        ensures keep(s[k]) <==> k in idx
      {
        if k < n {
          assert s[k] == init[k];
          assert k in idx <==> k in idx';
        } else {
          assert n !in idx';
        }
      }
    }
  }

  /** An embedding into all but the last element, extended by the last element. */
  lemma EmbedsExtend<T>(r: seq<T>, s: seq<T>, idx: seq<nat>)
    requires |s| > 0 && Embeds(r, s[..|s| - 1], idx)
    ensures Embeds(r + [s[|s| - 1]], s, idx + [|s| - 1])
  {
    var n := |s| - 1;
    var r', idx' := r + [s[n]], idx + [n];
    forall i | 0 <= i < |idx'|
      ensures idx'[i] < |s| && r'[i] == s[idx'[i]]
    {
      if i < |idx| {
        assert s[..n][idx[i]] == s[idx[i]];
      }
    }
  }

  /** An embedding into all but the last element is an embedding into the whole. */
  lemma EmbedsWiden<T>(r: seq<T>, s: seq<T>, idx: seq<nat>)
    requires |s| > 0 && Embeds(r, s[..|s| - 1], idx)
    ensures Embeds(r, s, idx)
  {
    var n := |s| - 1;
    forall i | 0 <= i < |idx|
      ensures idx[i] < |s| && r[i] == s[idx[i]]
    {
      assert s[..n][idx[i]] == s[idx[i]];
    }
  }

  /** The test that passes what passes both `first` and `second`. */
  function Both<T>(first: T -> bool, second: T -> bool): T -> bool {
    x => first(x) && second(x)
  }

  /** Filtering twice is filtering once with both tests. */
  lemma {:induction false} FilterTwice<T(!new)>(s: seq<T>, first: T -> bool, second: T -> bool)
    ensures Filter(Filter(s, first), second) == Filter(s, Both(first, second))
  {
    if s != [] {
      var init := s[..|s| - 1];
      FilterTwice(init, first, second);
      if first(s[|s| - 1]) {
        assert (Filter(init, first) + [s[|s| - 1]])[..|Filter(init, first)|] == Filter(init, first);
      }
    }
  }

  /** A test every element passes leaves the list unchanged. */
  lemma {:induction false} FilterKeepsAll<T(!new)>(s: seq<T>, keep: T -> bool)
    requires forall x :: x in s ==> keep(x)
    ensures Filter(s, keep) == s
  {
    if s != [] {
      var init := s[..|s| - 1];
      assert s == init + [s[|s| - 1]];
      FilterKeepsAll(init, keep);
    }
  }

  /** Two tests that agree on every element filter alike. */
  lemma {:induction false} FilterSameTest<T(!new)>(s: seq<T>, f: T -> bool, g: T -> bool)
    requires forall x :: x in s ==> f(x) == g(x)
    ensures Filter(s, f) == Filter(s, g)
  {
    if s != [] {
      var init := s[..|s| - 1];
      assert s == init + [s[|s| - 1]];
      FilterSameTest(init, f, g);
    }
  }

  // ---------------------------------------------------------------------------
  // Array.from(new Set(xs))

  /** The first index at which `x` occurs in `s`. */
  function FirstIndex<T(==)>(s: seq<T>, x: T): (k: nat)
    requires x in s
    ensures k < |s| && s[k] == x
    ensures forall m :: 0 <= m < k ==> s[m] != x
  {
    if s[0] == x then 0 else 1 + FirstIndex(s[1..], x)
  }

  /** `Array.from(new Set(s))`: a `Set` keeps its elements in insertion order and
      ignores an element it already holds. */
  function Distinct<T(==,!new)>(s: seq<T>): (r: seq<T>)
    ensures forall x :: x in r <==> x in s
    ensures forall i, j :: 0 <= i < j < |r| ==> r[i] != r[j]
  {
    if s == [] then []
    else
      var init := s[..|s| - 1];
      assert s == init + [s[|s| - 1]];
      var r := Distinct(init);
      if s[|s| - 1] in r then r else r + [s[|s| - 1]]
  }

  /** The distinct elements come out in the order of their first appearance. */
  lemma {:induction false} DistinctFirstAppearance<T(!new)>(s: seq<T>, i: nat, j: nat)
    requires i < j < |Distinct(s)|
    ensures FirstIndex(s, Distinct(s)[i]) < FirstIndex(s, Distinct(s)[j])
  {
    var n := |s| - 1;
    var init := s[..n];
    assert s == init + [s[n]];
    var r := Distinct(init);
    if j < |r| {
      DistinctFirstAppearance(init, i, j);
      FirstIndexOfPrefix(init, s, r[i]);
      FirstIndexOfPrefix(init, s, r[j]);
    } else {
      FirstIndexOfPrefix(init, s, r[i]);
      assert Distinct(s)[j] == s[n] && s[n] !in init;
    }
  }

  /** Extending a list does not move the first occurrence of an element it holds. */
  lemma FirstIndexOfPrefix<T>(init: seq<T>, s: seq<T>, x: T)
    requires x in init && init <= s
    ensures x in s && FirstIndex(s, x) == FirstIndex(init, x)
  {
    var k := FirstIndex(init, x);
    var f := FirstIndex(s, x);
    assert s[k] == x;
    assert forall m :: 0 <= m < k ==> s[m] != x by {
      forall m | 0 <= m < k
        ensures s[m] != x
      {
        assert s[m] == init[m];
      }
    }
  }

  // ---------------------------------------------------------------------------
  // The category list

  /** `tools.map((tool) => tool.category)`. */
  function CategoryField(tools: seq<Tool>): (r: seq<string>)
    ensures |r| == |tools|
    ensures forall i :: 0 <= i < |tools| ==> r[i] == tools[i].category
  {
    seq(|tools|, i requires 0 <= i < |tools| => tools[i].category)
  }

  /** `Array.from(new Set(tools.map((tool) => tool.category)))`, the category list of
      both pages. */
  function ToolCategories(tools: seq<Tool>): seq<string> {
    Distinct(CategoryField(tools))
  }

  /** Each category of the catalog is listed exactly once, and nothing else is. */
  lemma ToolCategoriesListed(tools: seq<Tool>, c: string)
    ensures c in ToolCategories(tools) <==> exists t :: t in tools && t.category == c
  {
    var cats := CategoryField(tools);
    if c in cats {
      var k := FirstIndex(cats, c);
      assert tools[k] in tools;
    }
    forall t | t in tools && t.category == c
      ensures c in cats
    {
      var k :| 0 <= k < |tools| && tools[k] == t;
      assert cats[k] == c;
    }
  }

  /** Categories are listed in the order in which the catalog first uses them. */
  lemma ToolCategoriesOrder(tools: seq<Tool>, i: nat, j: nat)
    requires i < j < |ToolCategories(tools)|
    ensures var cats := ToolCategories(tools);
            var fi := FirstIndex(CategoryField(tools), cats[i]);
            var fj := FirstIndex(CategoryField(tools), cats[j]);
            && tools[fi].category == cats[i] && tools[fj].category == cats[j]
            && fi < fj
            && (forall k :: 0 <= k < fi ==> tools[k].category != cats[i])
            && (forall k :: 0 <= k < fj ==> tools[k].category != cats[j])
  {
    DistinctFirstAppearance(CategoryField(tools), i, j);
  }
}
