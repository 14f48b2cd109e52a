/** The catalogue page (`ProductsComponent`): its search state, the
    filtered and suggested product lists, and the handlers that change the
    state. Unlike the root component it lower-cases the search without
    trimming it, and it tests the CAS number null-safely. */
module ProductsPage {
  import opened Wrappers
  import opened Text
  import opened Seqs
  import opened Sorting
  import opened UiCatalog
  import Sanitization

  /** The page's signals that the lists depend on. */
  datatype PageState = PageState(search: string, sort: string, selectedCategory: string, searchFocused: bool)

  const Initial: PageState := PageState("", "relevance", AllProducts, false)

  /** `search().toLowerCase()`. */
  function SearchTerm(st: PageState): string {
    Lower(st.search)
  }

  /** What the page lists for its state. */
  predicate Listed(p: UiProduct, st: PageState) {
    CategoryShows(p, st.selectedCategory) && (SearchTerm(st) == [] || MatchesTerm(p, SearchTerm(st)))
  }

  /** The category filter followed, for a non-empty term, by the search filter. */
  function Selection(ps: seq<UiProduct>, st: PageState): seq<UiProduct> {
    var cat := st.selectedCategory;
    var term := SearchTerm(st);
    var byCategory := if cat != AllProducts then Filter(ps, p => InCategory(p, cat)) else ps;
    if term != [] then Filter(byCategory, p => MatchesTerm(p, term)) else byCategory
  }

  lemma SelectionIsOneFilter(ps: seq<UiProduct>, st: PageState)
    ensures Selection(ps, st) == Filter(ps, x => Listed(x, st))
  {
    var cat := st.selectedCategory;
    var term := SearchTerm(st);
    var listed := x => Listed(x, st);
    if cat != AllProducts && term != [] {
      FilterFilter(ps, p => InCategory(p, cat), p => MatchesTerm(p, term), listed);
    } else if cat != AllProducts {
      FilterCongruent(ps, p => InCategory(p, cat), listed);
    } else if term != [] {
      FilterCongruent(ps, p => MatchesTerm(p, term), listed);
    } else {
      FilterAll(ps, listed);
    }
  }

  /** `filteredProducts`: the products the state lists, in catalogue order,
      or sorted by title when the sort is "name". */
  function FilteredProducts(ps: seq<UiProduct>, st: PageState, le: (string, string) -> bool): (r: seq<UiProduct>)
    requires TotalPreorder(le)
    ensures st.sort != "name" ==> r == Filter(ps, x => Listed(x, st)) && IsSubsequence(r, ps)
    ensures st.sort == "name" ==>
      multiset(r) == multiset(Filter(ps, x => Listed(x, st))) && SortedBy(r, Title, le)
  {
    SelectionIsOneFilter(ps, st);
    FilterIsSubsequence(ps, x => Listed(x, st));
    var selected := Selection(ps, st);
    if st.sort == "name" then SortByTitle(selected, le) else selected
  }

  /** `suggestedProducts`: nothing for an empty search, otherwise every
      product matching it, in catalogue order, whatever the category. */
  function SuggestedProducts(ps: seq<UiProduct>, st: PageState): (r: seq<UiProduct>)
    ensures SearchTerm(st) == [] ==> r == []
    ensures forall x :: x in r <==> SearchTerm(st) != [] && x in ps && MatchesTerm(x, SearchTerm(st))
    ensures IsSubsequence(r, ps)
  {
    var term := SearchTerm(st);
    if term == [] then [] else
      FilterIsSubsequence(ps, p => MatchesTerm(p, term));
      Filter(ps, p => MatchesTerm(p, term))
  }

  // --------------------------------------------------------------- handlers

  /** `updateSearch`: stores the sanitized value. */
  function UpdateSearch(st: PageState, value: string): (r: PageState)
    ensures r.sort == st.sort && r.selectedCategory == st.selectedCategory && r.searchFocused == st.searchFocused
    ensures StartsWith(JsTrim(value), r.search)
    ensures |r.search| <= Sanitization.DefaultMaxLength
    ensures |JsTrim(value)| <= Sanitization.DefaultMaxLength ==> r.search == JsTrim(value)
  {
    st.(search := Sanitization.SanitizeInput(value, Sanitization.DefaultMaxLength))
  }

  /** `clearSearch`: the page stops suggesting, and only the category and
      the sort order decide what it lists. */
  function ClearSearch(st: PageState): (r: PageState)
    ensures r.search == [] && forall ps :: SuggestedProducts(ps, r) == []
    ensures r.sort == st.sort && r.selectedCategory == st.selectedCategory && r.searchFocused == st.searchFocused
  {
    st.(search := "")
  }

  /** `onSearchBarFocus`: resets the category and marks the search focused. */
  function OnSearchBarFocus(st: PageState): (r: PageState)
    ensures r.selectedCategory == AllProducts && r.searchFocused
    ensures r.search == st.search && r.sort == st.sort
  {
    st.(selectedCategory := AllProducts, searchFocused := true)
  }

  /** `selectCategory`: sets the category and clears the search. */
  function SelectCategory(st: PageState, cat: string): (r: PageState)
    ensures r.selectedCategory == cat && r.search == []
    ensures r.sort == st.sort && r.searchFocused == st.searchFocused
  {
    ClearSearch(st).(selectedCategory := cat)
  }

  /** `updateSort`: a new order for the same listing; the suggestions do
      not depend on it. */
  function UpdateSort(st: PageState, sort: string): (r: PageState)
    ensures r.sort == sort
    ensures r.search == st.search && r.selectedCategory == st.selectedCategory && r.searchFocused == st.searchFocused
    ensures forall ps :: SuggestedProducts(ps, r) == SuggestedProducts(ps, st)
  {
    st.(sort := sort)
  }

  // ------------------------------------------------------------ properties

  /** After choosing a category the page lists that whole category (all
      products for "All Products") and suggests nothing. */
  lemma SelectCategoryListsWholeCategory(ps: seq<UiProduct>, st: PageState, cat: string,
                                         le: (string, string) -> bool)
    requires TotalPreorder(le)
    requires st.sort != "name"
    ensures FilteredProducts(ps, SelectCategory(st, cat), le) == Filter(ps, p => CategoryShows(p, cat))
    ensures SuggestedProducts(ps, SelectCategory(st, cat)) == []
  {
    var s := SelectCategory(st, cat);
    FilterCongruent(ps, x => Listed(x, s), p => CategoryShows(p, cat));
  }

  /** After the search is cleared the page lists every product of the
      selected category: in catalogue order, or sorted by title for "name". */
  lemma ClearSearchListsWholeCategory(ps: seq<UiProduct>, st: PageState, le: (string, string) -> bool)
    requires TotalPreorder(le)
    ensures var shown := FilteredProducts(ps, ClearSearch(st), le);
      var whole := Filter(ps, p => CategoryShows(p, st.selectedCategory));
      && (st.sort != "name" ==> shown == whole)
      && (st.sort == "name" ==> multiset(shown) == multiset(whole) && SortedBy(shown, Title, le))
  {
    var s := ClearSearch(st);
    FilterCongruent(ps, x => Listed(x, s), p => CategoryShows(p, st.selectedCategory));
  }

  /** Choosing "name" shows the listing of any other sort order, reordered
      by title; choosing anything else shows the catalogue order. */
  lemma UpdateSortReorders(ps: seq<UiProduct>, st: PageState, sort: string, le: (string, string) -> bool)
    requires TotalPreorder(le)
    ensures var unsorted := FilteredProducts(ps, UpdateSort(st, "relevance"), le);
      var shown := FilteredProducts(ps, UpdateSort(st, sort), le);
      && (sort != "name" ==> shown == unsorted)
      && (sort == "name" ==> multiset(shown) == multiset(unsorted) && SortedBy(shown, Title, le))
  {
    var s := UpdateSort(st, sort);
    var u := UpdateSort(st, "relevance");
    FilterCongruent(ps, x => Listed(x, s), x => Listed(x, u));
  }

  /** Once the search bar has focus, the unsorted list and the suggestions
      agree for any non-empty search. */
  lemma FocusedListEqualsSuggestions(ps: seq<UiProduct>, st: PageState, le: (string, string) -> bool)
    requires TotalPreorder(le)
    requires st.sort != "name" && SearchTerm(st) != []
    ensures FilteredProducts(ps, OnSearchBarFocus(st), le) == SuggestedProducts(ps, OnSearchBarFocus(st))
  {
    var s := OnSearchBarFocus(st);
    FilterCongruent(ps, x => Listed(x, s), p => MatchesTerm(p, SearchTerm(s)));
  }

  /** The suggestions do not depend on the selected category. */
  lemma SuggestionsIgnoreCategory(ps: seq<UiProduct>, st: PageState, cat: string)
    ensures SuggestedProducts(ps, st.(selectedCategory := cat)) == SuggestedProducts(ps, st)
  {
  }

  /** A search typed through `updateSearch` that fits the length bound is
      already trimmed, so this page's term equals the root component's
      trimmed query for the same input. */
  lemma TypedSearchIsTrimmed(st: PageState, value: string)
    requires |JsTrim(value)| <= Sanitization.DefaultMaxLength
    ensures SearchTerm(UpdateSearch(st, value)) == Lower(JsTrim(UpdateSearch(st, value).search))
  {
    Sanitization.TrimIdempotent(value, IsJsWhitespace);
  }
}
