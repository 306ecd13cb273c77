/** The catalog on the tools page (src/app/tools/page.tsx): a search over name and
    description only, and category buttons headed by "All".  The page declares its
    own tool list, which differs from the home page's only in two ids; neither
    filter reads `id`, so the lemmas compare both pages on one shared catalog. */
module ToolsPage {
  import opened Wrappers
  import opened Text
  import opened Catalog
  import HomePage

  /** The first category button, which restricts nothing. */
  const AllCategories := "All"

  /** `categories`: "All", then each category of the catalog once. */
  function Categories(tools: seq<Tool>): (r: seq<string>)
    ensures |r| >= 1 && r[0] == AllCategories
  {
    [AllCategories] + ToolCategories(tools)
  }

  /** The buttons offer "All" and exactly the catalog's categories. */
  lemma CategoriesOffered(tools: seq<Tool>, c: string)
    ensures c in Categories(tools) <==> c == AllCategories || exists t :: t in tools && t.category == c
  {
    ToolCategoriesListed(tools, c);
    assert Categories(tools) == [AllCategories] + ToolCategories(tools);
  }

  /** The search covers the name and the description, not the category. */
  predicate MatchesSearch(tool: Tool, query: string) {
    var q := Lower(query);
    Includes(Lower(tool.name), q) || Includes(Lower(tool.description), q)
  }

  predicate MatchesCategory(tool: Tool, selected: string) {
    selected == AllCategories || tool.category == selected
  }

  predicate Shown(tool: Tool, query: string, selected: string) {
    MatchesSearch(tool, query) && MatchesCategory(tool, selected)
  }

  /** The test `filteredTools` applies. */
  function ShownBy(query: string, selected: string): Tool -> bool {
    t => Shown(t, query, selected)
  }

  /** `filteredTools`. */
  function FilteredTools(tools: seq<Tool>, query: string, selected: string): seq<Tool> {
    Filter(tools, ShownBy(query, selected))
  }

  /** The filtered list is the catalog with the tools that fail dropped, in order. */
  lemma FilteredToolsInOrder(tools: seq<Tool>, query: string, selected: string) returns (idx: seq<nat>)
    ensures Embeds(FilteredTools(tools, query, selected), tools, idx)
    ensures forall k :: 0 <= k < |tools| ==> (Shown(tools[k], query, selected) <==> k in idx)
  {
    idx := FilterPositions(tools, ShownBy(query, selected));
  }

  /** The initial state, an empty query with "All" selected, shows the whole catalog. */
  lemma EverythingShownInitially(tools: seq<Tool>)
    ensures FilteredTools(tools, "", AllCategories) == tools
  {
    forall t | t in tools
      ensures Shown(t, "", AllCategories)
    {
      IncludesEmpty(Lower(t.name));
    }
    FilterKeepsAll(tools, ShownBy("", AllCategories));
  }

  /** A tool whose category is literally "All" cannot be singled out: its button
      shows every category. */
  lemma AllShadowsACategoryNamedAll(tools: seq<Tool>, query: string)
    ensures forall t :: t in tools && MatchesSearch(t, query) ==> t in FilteredTools(tools, query, AllCategories)
  {
  }

  /** Any other selection keeps only tools of exactly that category. */
  lemma SelectionRestricts(tools: seq<Tool>, query: string, selected: string)
    requires selected != AllCategories
    ensures forall t :: t in FilteredTools(tools, query, selected) ==> t.category == selected
  {
  }

  // ---------------------------------------------------------------------------
  // Against the home page

  /** With no category restriction on either page, the tools page shows the
      home page's results minus those found only through their category, in the
      same order. */
  lemma NarrowerThanHomePage(tools: seq<Tool>, query: string)
    ensures FilteredTools(tools, query, AllCategories)
            == Filter(HomePage.FilteredTools(tools, query, None), ShownBy(query, AllCategories))
  {
    FilterTwice(tools, HomePage.ShownBy(query, None), ShownBy(query, AllCategories));
    FilterSameTest(tools, ShownBy(query, AllCategories), Both(HomePage.ShownBy(query, None), ShownBy(query, AllCategories)));
  }

  /** A tool the home page finds by its category alone, because the query occurs
      in neither its name nor its description, is missing here whatever the
      selected category. */
  lemma CategoryNotSearchedAll(tools: seq<Tool>, query: string, selected: string, t: Tool)
    requires t in tools && HomePage.MatchesSearch(t, query)
    requires !Includes(Lower(t.name), Lower(query)) && !Includes(Lower(t.description), Lower(query))
    ensures Includes(Lower(t.category), Lower(query))
    ensures t in HomePage.FilteredTools(tools, query, None)
    ensures t !in FilteredTools(tools, query, selected)
  {
  }

  /** The case occurs: a tool whose category alone mentions the query. */
  lemma CategoryNotSearched()
    ensures var tool := Tool("docker", "Docker", "Runtime", "containers");
            && tool in HomePage.FilteredTools([tool], "containers", None)
            && FilteredTools([tool], "containers", AllCategories) == []
  {
    var tool := Tool("docker", "Docker", "Runtime", "containers");
    HomePage.FoundByCategory([tool], tool);
    assert Lower(tool.category) == "containers";
    assert !Includes(Lower(tool.name), "containers");
    assert !Includes(Lower(tool.description), "containers");
  }

  /** The React state of the page. */
  class ToolsPageState {
    var searchQuery: string
    var selectedCategory: string

    constructor ()
      ensures searchQuery == "" && selectedCategory == AllCategories
      ensures forall tools :: Visible(tools) == tools
    {
      searchQuery := "";
      selectedCategory := AllCategories;
      new;
      forall tools
        ensures Visible(tools) == tools
      {
        EverythingShownInitially(tools);
      }
    }

    /** `onSearch={setSearchQuery}`. */
    method OnSearch(query: string)
      modifies this
      ensures searchQuery == query && selectedCategory == old(selectedCategory)
    {
      searchQuery := query;
    }

    /** `onClick={() => setSelectedCategory(category)}`: a click always selects, even
        the category already selected. */
    method ClickCategory(category: string)
      modifies this
      ensures selectedCategory == category && searchQuery == old(searchQuery)
    {
      selectedCategory := category;
    }

    /** What the page shows for the current state. */
    function Visible(tools: seq<Tool>): seq<Tool>
      reads this
    {
      FilteredTools(tools, searchQuery, selectedCategory)
    }
  }
}
