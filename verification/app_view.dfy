/** The root component's catalogue (`App`): the filtered and featured
    product lists, the choice between the API's products and the built-in
    sample catalogue, and the category bar.

    Both product lists test `casNumber.toLowerCase()` without a null guard.
    `FilteredProductsAsWritten` and `FeaturedProductsAsWritten` model that
    code, with `None` for the TypeError it raises; `FilteredProducts` and
    `FeaturedProducts` are the null-safe reading the products page uses. */
module AppView {
  import opened Wrappers
  import opened Text
  import opened Seqs
  import opened Sorting
  import opened UiCatalog

  /** How many products the landing page features. */
  const FeaturedCount: nat := 8

  /** The outcome of an HTTP call: a body (possibly null) or an error. */
  datatype Response<T> = Delivered(body: Option<T>) | Failed

  /** `search().trim().toLowerCase()`. */
  function Query(search: string): string {
    Lower(JsTrim(search))
  }

  /** What the screen shows for category `cat` and query `q`. */
  predicate Shown(p: UiProduct, cat: string, q: string) {
    CategoryShows(p, cat) && (q == [] || MatchesTerm(p, q))
  }

  // ------------------------------------------------------- the query test

  /** `p.title.toLowerCase().includes(q) || p.casNumber.toLowerCase().includes(q)`
      as written: the second operand dereferences a null CAS number, which
      throws (`None`); otherwise the answer is the null-safe test's. */
  function MatchesAsWritten(p: UiProduct, q: string): (r: Option<bool>)
    ensures r.None? <==> !Contains(Lower(p.title), q) && p.casNumber.None?
    ensures r.Some? ==> r.value == MatchesTerm(p, q)
  {
    if Contains(Lower(p.title), q) then Some(true)
    else if p.casNumber.None? then None
    else Some(Contains(Lower(p.casNumber.value), q))
  }

  /** `list.filter(...)` with the throwing test: the first throw aborts the
      whole computation. */
  function FilterAsWritten(ps: seq<UiProduct>, q: string): (r: Option<seq<UiProduct>>)
    ensures r.None? <==> exists i :: 0 <= i < |ps| && MatchesAsWritten(ps[i], q).None?
    ensures r.Some? ==> r.value == Filter(ps, p => MatchesTerm(p, q))
  {
    if |ps| == 0 then Some([])
    else
      match MatchesAsWritten(ps[0], q)
      case None => None
      case Some(keep) =>
        match FilterAsWritten(ps[1..], q)
        case None =>
          assert forall i :: 1 <= i < |ps| ==> ps[i] == ps[1..][i - 1];
          None
        case Some(rest) =>
          assert forall i :: 0 < i < |ps| ==> ps[1..][i - 1] == ps[i];
          Some((if keep then [ps[0]] else []) + rest)
  }

  // ------------------------------------------------------ filteredProducts

  /** The first `list.filter` of `filteredProducts`: the category filter,
      skipped for "All Products". */
  function ByCategory(ps: seq<UiProduct>, cat: string): seq<UiProduct> {
    if cat != AllProducts then Filter(ps, p => InCategory(p, cat)) else ps
  }

  /** The category filter followed, for a non-empty query, by the query
      filter: the two `list.filter` calls of `filteredProducts`. */
  function Selection(ps: seq<UiProduct>, cat: string, q: string): seq<UiProduct> {
    var byCategory := ByCategory(ps, cat);
    if q != [] then Filter(byCategory, p => MatchesTerm(p, q)) else byCategory
  }

  /** The two filters in a row select what one filter by `Shown` selects. */
  lemma SelectionIsOneFilter(ps: seq<UiProduct>, cat: string, q: string)
    ensures Selection(ps, cat, q) == Filter(ps, x => Shown(x, cat, q))
  {
    var shown := x => Shown(x, cat, q);
    if cat != AllProducts && q != [] {
      FilterFilter(ps, p => InCategory(p, cat), p => MatchesTerm(p, q), shown);
    } else if cat != AllProducts {
      FilterCongruent(ps, p => InCategory(p, cat), shown);
    } else if q != [] {
      FilterCongruent(ps, p => MatchesTerm(p, q), shown);
    } else {
      FilterAll(ps, shown);
    }
  }

  /** `filteredProducts`, null-safe: the category filter, then the query
      filter when the trimmed, lower-cased query is non-empty, then an
      optional sort by title. */
  function FilteredProducts(ps: seq<UiProduct>, cat: string, search: string, sort: string,
                            le: (string, string) -> bool): (r: seq<UiProduct>)
    requires TotalPreorder(le)
    ensures sort != "name" ==> r == Filter(ps, x => Shown(x, cat, Query(search)))
    ensures sort == "name" ==>
      && multiset(r) == multiset(Filter(ps, x => Shown(x, cat, Query(search))))
      && SortedBy(r, Title, le)
  {
    var selected := Selection(ps, cat, Query(search));
    SelectionIsOneFilter(ps, cat, Query(search));
    if sort == "name" then SortByTitle(selected, le) else selected
  }

  /** Exactly the products passing both filters show, sorted or not. */
  lemma FilteredProductsShowExactly(ps: seq<UiProduct>, cat: string, search: string, sort: string,
                                    le: (string, string) -> bool)
    requires TotalPreorder(le)
    ensures forall x :: x in FilteredProducts(ps, cat, search, sort, le) <==> x in ps && Shown(x, cat, Query(search))
  {
    var r := FilteredProducts(ps, cat, search, sort, le);
    var f := Filter(ps, x => Shown(x, cat, Query(search)));
    assert multiset(r) == multiset(f);
    forall x
      ensures x in r <==> x in f
    {
      assert x in r <==> x in multiset(r);
      assert x in f <==> x in multiset(f);
    }
  }

  /** `filteredProducts` as written. It throws exactly when the query is
      non-empty and some product that passed the category filter has no CAS
      number and a title without the query; otherwise it agrees with the
      null-safe reading. */
  function FilteredProductsAsWritten(ps: seq<UiProduct>, cat: string, search: string, sort: string,
                                     le: (string, string) -> bool): (r: Option<seq<UiProduct>>)
    requires TotalPreorder(le)
    ensures r.None? <==> Query(search) != [] && Throws(ps, cat, Query(search))
    ensures r.Some? ==> r.value == FilteredProducts(ps, cat, search, sort, le)
  {
    var q := Query(search);
    var byCategory := ByCategory(ps, cat);
    if q == [] then
      Some(FilteredProducts(ps, cat, search, sort, le))
    else
      var attempt := FilterAsWritten(byCategory, q);
      ThrowsIffCategoryThrows(ps, cat, q);
      if attempt.None? then None
      else
        Some(if sort == "name" then SortByTitle(attempt.value, le) else attempt.value)
  }

  /** Some product the category filter lets through makes the query test throw. */
  predicate Throws(ps: seq<UiProduct>, cat: string, q: string) {
    exists i :: 0 <= i < |ps| && CategoryShows(ps[i], cat) && MatchesAsWritten(ps[i], q).None?
  }

  /** A product that passes the category filter and throws still throws
      after the category filter. */
  lemma ThrowerSurvivesCategory(ps: seq<UiProduct>, cat: string, q: string, i: nat)
    requires i < |ps| && CategoryShows(ps[i], cat) && MatchesAsWritten(ps[i], q).None?
    ensures exists j :: 0 <= j < |ByCategory(ps, cat)| && MatchesAsWritten(ByCategory(ps, cat)[j], q).None?
  {
    var byCategory := ByCategory(ps, cat);
    if cat != AllProducts {
      assert ps[i] in byCategory;
      var j :| 0 <= j < |byCategory| && byCategory[j] == ps[i];
    } else {
      assert byCategory[i] == ps[i];
    }
  }

  /** A product that throws after the category filter is a product of the
      catalogue that passes the category filter and throws. */
  lemma ThrowerComesFromCatalog(ps: seq<UiProduct>, cat: string, q: string, j: nat)
    requires j < |ByCategory(ps, cat)| && MatchesAsWritten(ByCategory(ps, cat)[j], q).None?
    ensures Throws(ps, cat, q)
  {
    var byCategory := ByCategory(ps, cat);
    if cat != AllProducts {
      assert byCategory[j] in ps && InCategory(byCategory[j], cat);
      var i :| 0 <= i < |ps| && ps[i] == byCategory[j];
      assert CategoryShows(ps[i], cat);
    } else {
      assert CategoryShows(ps[j], cat);
    }
  }

  /** Filtering by category first does not change whether the query test throws. */
  lemma ThrowsIffCategoryThrows(ps: seq<UiProduct>, cat: string, q: string)
    ensures Throws(ps, cat, q) <==>
      exists j :: 0 <= j < |ByCategory(ps, cat)| && MatchesAsWritten(ByCategory(ps, cat)[j], q).None?
  {
    if Throws(ps, cat, q) {
      var i :| 0 <= i < |ps| && CategoryShows(ps[i], cat) && MatchesAsWritten(ps[i], q).None?;
      ThrowerSurvivesCategory(ps, cat, q, i);
    }
    if exists j :: 0 <= j < |ByCategory(ps, cat)| && MatchesAsWritten(ByCategory(ps, cat)[j], q).None? {
      var j :| 0 <= j < |ByCategory(ps, cat)| && MatchesAsWritten(ByCategory(ps, cat)[j], q).None?;
      ThrowerComesFromCatalog(ps, cat, q, j);
    }
  }

  /** The sort only reorders: with and without it the same products show. */
  lemma SortOnlyReorders(ps: seq<UiProduct>, cat: string, search: string, le: (string, string) -> bool)
    requires TotalPreorder(le)
    ensures multiset(FilteredProducts(ps, cat, search, "name", le))
         == multiset(FilteredProducts(ps, cat, search, "relevance", le))
  {
  }

  /** Products from the API carry no `category`, so choosing any category
      other than "All Products" empties the list. */
  lemma ApiProductsMissEveryCategory(ps: seq<UiProduct>, cat: string, search: string, sort: string,
                                     le: (string, string) -> bool)
    requires TotalPreorder(le)
    requires forall i :: 0 <= i < |ps| ==> ps[i].category.None?
    requires cat != AllProducts
    ensures FilteredProducts(ps, cat, search, sort, le) == []
  {
    FilteredProductsShowExactly(ps, cat, search, sort, le);
  }

  // ------------------------------------------------------ featuredProducts

  /** `featuredProducts`, null-safe: the first eight products when the
      query is empty, else the first eight that match it, whatever
      category is selected. */
  function FeaturedProducts(ps: seq<UiProduct>, search: string): (r: seq<UiProduct>)
    ensures |r| <= FeaturedCount
    ensures Query(search) == [] ==> r == Take(ps, FeaturedCount)
    ensures Query(search) != [] ==>
      && (forall x :: x in r ==> x in ps && MatchesTerm(x, Query(search)))
      && r == Take(Filter(ps, p => MatchesTerm(p, Query(search))), FeaturedCount)
  {
    var q := Query(search);
    if q == [] then Take(ps, FeaturedCount)
    else Take(Filter(ps, p => MatchesTerm(p, q)), FeaturedCount)
  }

  /** `featuredProducts` as written: the filter runs over every product
      before the slice, so one product without a CAS number whose title
      misses the query makes it throw. */
  function FeaturedProductsAsWritten(ps: seq<UiProduct>, search: string): (r: Option<seq<UiProduct>>)
    ensures r.None? <==>
      Query(search) != [] && exists i :: 0 <= i < |ps| && MatchesAsWritten(ps[i], Query(search)).None?
    ensures r.Some? ==> r.value == FeaturedProducts(ps, search)
  {
    var q := Query(search);
    if q == [] then Some(Take(ps, FeaturedCount))
    else
      match FilterAsWritten(ps, q)
      case None => None
      case Some(matches) => Some(Take(matches, FeaturedCount))
  }

  /** The featured list is the head of the catalogue the same query shows
      under "All Products" without sorting. */
  lemma FeaturedIsHeadOfCatalog(ps: seq<UiProduct>, search: string, le: (string, string) -> bool)
    requires TotalPreorder(le)
    ensures FeaturedProducts(ps, search)
         == Take(FilteredProducts(ps, AllProducts, search, "relevance", le), FeaturedCount)
  {
    var q := Query(search);
    if q == [] {
      FilterAll(ps, x => Shown(x, AllProducts, q));
    } else {
      FilterCongruent(ps, p => MatchesTerm(p, q), x => Shown(x, AllProducts, q));
    }
  }

  /** One product without a CAS number whose title misses a non-empty query
      makes both lists of the code as written throw, while the null-safe
      reading leaves it out. */
  lemma NullCasNumberBreaksSearch(p: UiProduct, search: string, le: (string, string) -> bool)
    requires TotalPreorder(le)
    requires p.casNumber.None? && Query(search) != [] && !Contains(Lower(p.title), Query(search))
    ensures FilteredProductsAsWritten([p], AllProducts, search, "relevance", le).None?
    ensures FeaturedProductsAsWritten([p], search).None?
    ensures FilteredProducts([p], AllProducts, search, "relevance", le) == []
  {
    assert [p][0] == p;
    assert MatchesAsWritten(p, Query(search)).None?;
    assert Throws([p], AllProducts, Query(search));
  }

  /** A concrete catalogue on which the code as written throws: one product
      titled "Tin" without a CAS number, searched for "iodine". */
  lemma TinBreaksIodineSearch(p: UiProduct, search: string, le: (string, string) -> bool)
    requires TotalPreorder(le)
    requires p == UiProduct(1, "Tin", None, None, None, None) && search == "iodine"
    ensures FilteredProductsAsWritten([p], AllProducts, search, "relevance", le).None?
    ensures FeaturedProductsAsWritten([p], search).None?
    ensures FilteredProducts([p], AllProducts, search, "relevance", le) == []
  {
    TinMissesIodine(p, search);
    NullCasNumberBreaksSearch(p, search, le);
  }

  /** "Tin" without a CAS number misses the query "iodine". */
  lemma TinMissesIodine(p: UiProduct, search: string)
    requires p == UiProduct(1, "Tin", None, None, None, None) && search == "iodine"
    ensures p.casNumber.None? && Query(search) != [] && !Contains(Lower(p.title), Query(search))
  {
    PlainQuery(search);
    NoCasNoMatch(p);
  }

  /** A term without capitals and without whitespace at its ends is its own
      trimmed, lower-cased query. */
  lemma PlainQuery(s: string)
    requires |s| > 0 ==> !IsJsWhitespace(s[0]) && !IsJsWhitespace(s[|s| - 1])
    requires forall i :: 0 <= i < |s| ==> !IsAsciiUpper(s[i])
    ensures Query(s) == s
  {
    TrimKeepsKeptEnds(s, IsJsWhitespace);
    LowerKeepsNonUpper(s);
  }

  /** A product titled "Tin" without a CAS number makes the test for "iodine" throw. */
  lemma NoCasNoMatch(p: UiProduct)
    requires p == UiProduct(1, "Tin", None, None, None, None)
    ensures MatchesAsWritten(p, "iodine").None? && !MatchesTerm(p, "iodine")
  {
    assert |Lower("Tin")| < |"iodine"|;
  }

  // ------------------------------------------------------- loaded catalogue

  /** The sample catalogue shown while the API is unavailable. */
  const FallbackProducts: seq<UiProduct> := [
    UiProduct(1, "R -2-Amino-2-(Cyclohexa-1,4-Dien-1-yl)Acetic Acid", Some("26774-88-9"),
              Some("https://via.placeholder.com/400x300?text=Product+1"),
              Some("High purity chemical for research and industrial use."), Some("Industrial Chemicals")),
    UiProduct(2, "2-acetamido-2-deoxy-alpha-d- Glucopyranosylchloride-3,4,6- Triacetate", Some("-"),
              Some("https://via.placeholder.com/400x300?text=Product+2"),
              Some("Speciality reagent used in glycosylation reactions."), Some("Laboratory Chemical")),
    UiProduct(3, "(4s)-4-(Aminomethyl)-1,3-Oxazolidin-2-One, 1hydrochloride Salt", Some("-"),
              Some("https://via.placeholder.com/400x300?text=Product+3"),
              Some("Intermediate used in pharmaceutical synthesis."), Some("Pharmaceutical Ingredients")),
    UiProduct(4, "Anti-Human Igg (Gama-Chain Specific)-Fitc", Some("-"),
              Some("https://via.placeholder.com/400x300?text=Product+4"),
              Some("Biological reagent for immunoassays."), Some("Speciality Chemicals")),
    UiProduct(5, "Dehydroisoandrosterone 3- Sulfate Sodium Salt Dihydrate", Some("-"),
              Some("https://via.placeholder.com/400x300?text=Product+5"),
              Some("Steroid derivative for pharmaceutical applications."), Some("Industrial Chemicals")),
    UiProduct(6, "N-2-acetamido Phenethyl-1- Hydroxy-2-naphthamide", Some("-"),
              Some("https://via.placeholder.com/400x300?text=Product+6"),
              Some("Chemical compound for research purposes."), Some("Industrial Chemicals")),
    UiProduct(7, "3-acetamido-5-boronic Benzoic Acid", Some("-"),
              Some("https://via.placeholder.com/400x300?text=Product+7"),
              Some("Boronic acid derivative for synthesis."), Some("Industrial Chemicals")),
    UiProduct(8, "2-acetamido-5- Fluorobenzoic Acid", Some("-"),
              Some("https://via.placeholder.com/400x300?text=Product+8"),
              Some("Fluorinated benzoic acid derivative."), Some("Industrial Chemicals"))]

  /** `fetchProducts`: the API's list when it is a non-empty list, the
      sample catalogue when the list is null or empty or the call fails. */
  function LoadedProducts(response: Response<seq<UiProduct>>): (r: seq<UiProduct>)
    ensures |r| > 0
    ensures r != FallbackProducts ==> response.Delivered? && response.body == Some(r)
    ensures (response.Delivered? && response.body.Some? && |response.body.value| > 0) ==>
      r == response.body.value
  {
    match response
    case Delivered(Some(list)) => if |list| > 0 then list else FallbackProducts
    case _ => FallbackProducts
  }

  /** Whatever the API does, the sample catalogue keeps the landing page's
      featured list filled when nothing is searched. */
  lemma FeaturedNeverEmptyWithoutQuery(response: Response<seq<UiProduct>>, search: string)
    requires Query(search) == []
    ensures |FeaturedProducts(LoadedProducts(response), search)| > 0
  {
  }

  // -------------------------------------------------------------- categories

  /** The category bar used while the category API is unavailable. */
  const DefaultCategories: seq<string> := [
    AllProducts, "Industrial Chemicals", "Laboratory Chemical",
    "Pharmaceutical Ingredients", "Solvents", "Speciality Chemicals"]

  /** `fetchCategories`: "All Products" followed by the API's names in
      order; the default bar on failure. A null list makes the success
      callback throw before it sets anything, so the bar stays as it was. */
  function CategoryBar(current: seq<string>, response: Response<seq<UiCategory>>): (r: seq<string>)
    ensures response.Delivered? && response.body.Some? ==>
      && |r| == |response.body.value| + 1
      && r[0] == AllProducts
      && forall i :: 0 <= i < |response.body.value| ==> r[i + 1] == response.body.value[i].name
    ensures response.Failed? ==> r == DefaultCategories
    ensures response == Delivered(None) ==> r == current
  {
    match response
    case Delivered(Some(list)) => [AllProducts] + Seqs.Map(list, (c: UiCategory) => c.name)
    case Delivered(None) => current
    case Failed => DefaultCategories
  }

  /** The bar starts with "All Products" and every fetch keeps it first. */
  lemma CategoryBarKeepsAllProductsFirst(current: seq<string>, response: Response<seq<UiCategory>>)
    requires |current| > 0 && current[0] == AllProducts
    ensures var r := CategoryBar(current, response); |r| > 0 && r[0] == AllProducts
  {
  }
}
