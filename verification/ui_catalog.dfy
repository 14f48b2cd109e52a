/** The browser's view of the catalogue: the `Product` and `Category`
    interfaces the Angular components work on, and the product tests the
    three catalogue screens share.

    JSON values the backend may send as null (or leave out) are options, and
    JavaScript `toLowerCase` is the ASCII `Lower` of the text primitives.
    `localeCompare` is a parameter: any total preorder on strings. */
module UiCatalog {
  import opened Wrappers
  import opened Text
  import opened Seqs
  import opened Sorting

  /** The label of the pseudo-category that disables the category filter. */
  const AllProducts: string := "All Products"

  /** The frontend `Product`. The backend's listing sends `categoryName`,
      not `category`, so `category` is absent (`None`) on products that came
      from the API and set only on the built-in sample products. */
  datatype UiProduct = UiProduct(
    id: int,
    title: string,
    casNumber: Option<string>,
    imageUrl: Option<string>,
    description: Option<string>,
    category: Option<string>)

  /** The frontend `Category`. */
  datatype UiCategory = UiCategory(id: int, name: string, slug: string, url: string)

  /** `p.category === cat`: strict, case-sensitive equality; an absent
      category equals no string. */
  predicate InCategory(p: UiProduct, cat: string) {
    p.category == Some(cat)
  }

  /** The category filter of the catalogue screens: "All Products" lets
      everything through, any other label only that exact category. */
  predicate CategoryShows(p: UiProduct, cat: string) {
    cat == AllProducts || InCategory(p, cat)
  }

  /** The null-safe search test: the lower-cased title contains `term`, or
      there is a CAS number and its lower-cased form contains `term`. */
  predicate MatchesTerm(p: UiProduct, term: string) {
    || Contains(Lower(p.title), term)
    || (p.casNumber.Some? && Contains(Lower(p.casNumber.value), term))
  }

  function Title(p: UiProduct): string {
    p.title
  }

  /** `[...list].sort((a, b) => a.title.localeCompare(b.title))`. */
  function SortByTitle(ps: seq<UiProduct>, le: (string, string) -> bool): (r: seq<UiProduct>)
    requires TotalPreorder(le)
    ensures multiset(r) == multiset(ps)
    ensures SortedBy(r, Title, le)
  {
    SortBy(ps, Title, le)
  }

  /** The empty term is a factor of every string, so the empty search
      matches every product. */
  lemma EmptyTermMatchesAll(p: UiProduct)
    ensures MatchesTerm(p, [])
  {
    assert [] == Factor(Lower(p.title), 0, 0);
  }
}
