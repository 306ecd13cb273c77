/** The catalog on the home page (src/app/page.tsx): a search box and a row of
    category buttons narrow the tool list, and the tools left are shown grouped
    under their category. */
module HomePage {
  import opened Wrappers
  import opened Text
  import opened Catalog

  /** The search covers the name, the description and the category, ignoring case. */
  predicate MatchesSearch(tool: Tool, query: string) {
    var q := Lower(query);
    Includes(Lower(tool.name), q) || Includes(Lower(tool.description), q) || Includes(Lower(tool.category), q)
  }

  /** `!selectedCategory || tool.category === selectedCategory`: no selection, and
      also the (falsy) empty string, restrict nothing. */
  predicate MatchesCategory(tool: Tool, selected: Option<string>) {
    selected.None? || selected.value == "" || tool.category == selected.value
  }

  predicate Shown(tool: Tool, query: string, selected: Option<string>) {
    MatchesSearch(tool, query) && MatchesCategory(tool, selected)
  }

  /** The test `filteredTools` applies. */
  function ShownBy(query: string, selected: Option<string>): Tool -> bool {
    t => Shown(t, query, selected)
  }

  /** `filteredTools`. */
  function FilteredTools(tools: seq<Tool>, query: string, selected: Option<string>): seq<Tool> {
    Filter(tools, ShownBy(query, selected))
  }

  /** The filtered list is the catalog with the tools that fail dropped: `idx`
      lists, in increasing order, exactly the positions of the tools shown. */
  lemma FilteredToolsInOrder(tools: seq<Tool>, query: string, selected: Option<string>) returns (idx: seq<nat>)
    ensures Embeds(FilteredTools(tools, query, selected), tools, idx)
    ensures forall k :: 0 <= k < |tools| ==> (Shown(tools[k], query, selected) <==> k in idx)
  {
    idx := FilterPositions(tools, ShownBy(query, selected));
  }

  /** An empty query and no selection show the whole catalog, in order. */
  lemma EverythingShownInitially(tools: seq<Tool>)
    ensures FilteredTools(tools, "", None) == tools
  {
    forall t | t in tools
      ensures Shown(t, "", None)
    {
      IncludesEmpty(Lower(t.name));
    }
    FilterKeepsAll(tools, ShownBy("", None));
  }

  /** Selecting the empty string is the same as selecting nothing. */
  lemma EmptySelectionRestrictsNothing(tools: seq<Tool>, query: string)
    ensures FilteredTools(tools, query, Some("")) == FilteredTools(tools, query, None)
  {
    FilterSameTest(tools, ShownBy(query, Some("")), ShownBy(query, None));
  }

  /** Selecting a category narrows the unrestricted result to that category, and
      keeps its order. */
  lemma SelectionNarrows(tools: seq<Tool>, query: string, category: string)
    requires category != ""
    ensures FilteredTools(tools, query, Some(category)) == InCategory(FilteredTools(tools, query, None), category)
  {
    FilterTwice(tools, ShownBy(query, None), HasCategory(category));
    FilterSameTest(tools, ShownBy(query, Some(category)), Both(ShownBy(query, None), HasCategory(category)));
  }

  /** Every tool is found by its own category name when nothing is selected. */
  lemma FoundByCategory(tools: seq<Tool>, tool: Tool)
    requires tool in tools
    ensures tool in FilteredTools(tools, tool.category, None)
  {
    IncludesSelf(Lower(tool.category));
  }

  // ---------------------------------------------------------------------------
  // toolsByCategory

  /** `(tool) => tool.category === category`. */
  function HasCategory(category: string): Tool -> bool {
    (t: Tool) => t.category == category
  }

  /** The filtered tools of one category, in order. */
  function InCategory(tools: seq<Tool>, category: string): seq<Tool> {
    Filter(tools, HasCategory(category))
  }

  /** What `toolsByCategory` is meant to be: a key for each listed category that
      has a filtered tool, and under it exactly that category's filtered tools. */
  ghost predicate GroupsBy(groups: map<string, seq<Tool>>, categories: seq<string>, filtered: seq<Tool>) {
    && (forall c :: c in groups <==> c in categories && exists t :: t in filtered && t.category == c)
    && (forall c :: c in groups ==> groups[c] == InCategory(filtered, c))
  }

  /** The `reduce` over the category list that builds `toolsByCategory`, assigning
      a key only when the category's filtered list is non-empty. */
  method ToolsByCategory(categories: seq<string>, filteredTools: seq<Tool>) returns (groups: map<string, seq<Tool>>)
    ensures GroupsBy(groups, categories, filteredTools)
  {
    groups := map[];
    for k := 0 to |categories|
      invariant forall c :: c in groups <==> c in categories[..k] && exists t :: t in filteredTools && t.category == c
      invariant forall c :: c in groups ==> groups[c] == InCategory(filteredTools, c)
    {
      var category := categories[k];
      var categoryTools := InCategory(filteredTools, category);
      if |categoryTools| > 0 {
        assert categoryTools[0] in categoryTools;
        groups := groups[category := categoryTools];
      }
      assert categories[..k + 1] == categories[..k] + [category];
    }
    assert categories[..|categories|] == categories;
  }

  /** When every filtered tool's category is listed, the groups partition the
      filtered tools: each lands in the group of its category and in no other, no
      group is empty, and there are no groups exactly when nothing passed the filter. */
  lemma GroupsPartition(groups: map<string, seq<Tool>>, categories: seq<string>, filtered: seq<Tool>)
    requires GroupsBy(groups, categories, filtered)
    requires forall t :: t in filtered ==> t.category in categories
    ensures forall t :: t in filtered ==> t.category in groups && t in groups[t.category]
    ensures forall c, t :: c in groups && t in groups[c] ==> t in filtered && t.category == c
    ensures forall c :: c in groups ==> |groups[c]| > 0
    ensures groups == map[] <==> filtered == []
  {
    forall c | c in groups
      ensures |groups[c]| > 0
    {
      var t :| t in filtered && t.category == c;
      assert t in groups[c];
    }
    if filtered != [] {
      assert filtered[0].category in groups;
    }
  }

  /** The home page's grouping of its filtered list is such a partition. */
  lemma HomeGroupsPartition(groups: map<string, seq<Tool>>, tools: seq<Tool>, query: string, selected: Option<string>)
    requires GroupsBy(groups, ToolCategories(tools), FilteredTools(tools, query, selected))
    ensures forall t :: t in FilteredTools(tools, query, selected) ==> t.category in groups && t in groups[t.category]
    ensures forall c, t :: c in groups && t in groups[c] ==> t in FilteredTools(tools, query, selected) && t.category == c
    ensures forall c :: c in groups ==> |groups[c]| > 0
    ensures groups == map[] <==> FilteredTools(tools, query, selected) == []
  {
    var filtered := FilteredTools(tools, query, selected);
    forall t | t in filtered
      ensures t.category in ToolCategories(tools)
    {
      ToolCategoriesListed(tools, t.category);
    }
    GroupsPartition(groups, ToolCategories(tools), filtered);
  }

  // ---------------------------------------------------------------------------
  // The page state

  /** A click on a category button: the selected one is deselected, any other is selected. */
  function Toggle(selected: Option<string>, category: string): (r: Option<string>)
    ensures r == None <==> selected == Some(category)
    ensures r != None ==> r == Some(category)
  {
    if selected == Some(category) then None else Some(category)
  }

  /** Two clicks on the same category end with nothing selected, unless it was
      selected to begin with. */
  lemma ToggleTwice(selected: Option<string>, category: string)
    ensures Toggle(Toggle(selected, category), category) == if selected == Some(category) then selected else None
  {
  }

  /** Clicking a category that is not selected shows only that category's tools
      among those the query finds. */
  lemma ClickSelectsCategory(tools: seq<Tool>, query: string, selected: Option<string>, category: string)
    requires category != "" && selected != Some(category)
    ensures FilteredTools(tools, query, Toggle(selected, category))
            == InCategory(FilteredTools(tools, query, None), category)
  {
    SelectionNarrows(tools, query, category);
  }

  /** Clicking the selected category again lifts the restriction, like "All". */
  lemma ClickAgainShowsAll(tools: seq<Tool>, query: string, category: string)
    ensures FilteredTools(tools, query, Toggle(Some(category), category)) == FilteredTools(tools, query, None)
  {
  }

  /** The React state of the page: the query the search box reports and the
      selected category. */
  class HomeState {
    var searchQuery: string
    var selectedCategory: Option<string>

    constructor ()
      ensures searchQuery == "" && selectedCategory == None
      ensures forall tools :: Visible(tools) == tools
    {
      searchQuery := "";
      selectedCategory := None;
      new;
      forall tools
        ensures Visible(tools) == tools
      {
        EverythingShownInitially(tools);
      }
    }

    /** `onSearch={setSearchQuery}`. */
    method OnSearch(query: string)
      modifies this
      ensures searchQuery == query && selectedCategory == old(selectedCategory)
    {
      searchQuery := query;
    }

    /** The "All" button. */
    method ClickAll()
      modifies this
      ensures selectedCategory == None && searchQuery == old(searchQuery)
    {
      selectedCategory := None;
    }

    /** A category button: a new choice shows that category's tools among those the
        query finds, and a second click on the same one shows them all again. */
    method ClickCategory(category: string)
      modifies this
      ensures selectedCategory == Toggle(old(selectedCategory), category)
      ensures searchQuery == old(searchQuery)
      ensures forall tools :: Visible(tools)
                == if old(selectedCategory) == Some(category) || category == ""
                   then FilteredTools(tools, searchQuery, None)
                   else InCategory(FilteredTools(tools, searchQuery, None), category)
    {
      selectedCategory := if selectedCategory == Some(category) then None else Some(category);
      forall tools
        ensures Visible(tools)
                == if old(selectedCategory) == Some(category) || category == ""
                   then FilteredTools(tools, searchQuery, None)
                   else InCategory(FilteredTools(tools, searchQuery, None), category)
      {
        if old(selectedCategory) == Some(category) {
          ClickAgainShowsAll(tools, searchQuery, category);
        } else if category == "" {
          EmptySelectionRestrictsNothing(tools, searchQuery);
        } else {
          ClickSelectsCategory(tools, searchQuery, old(selectedCategory), category);
        }
      }
    }

    /** What the page shows for the current state. */
    function Visible(tools: seq<Tool>): seq<Tool>
      reads this
    {
      FilteredTools(tools, searchQuery, selectedCategory)
    }
  }
}
