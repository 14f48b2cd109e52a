/** The admin screen (`AdminComponent`): the category and product search
    boxes and the product the "add product" form builds. Every search
    lower-cases its term without trimming it; an empty term shows the whole
    list. */
module AdminPage {
  import opened Wrappers
  import opened Text
  import opened Seqs
  import opened UiCatalog

  /** The category search test: name or slug contains the term. */
  predicate CategoryMatches(c: UiCategory, term: string) {
    Contains(Lower(c.name), term) || Contains(Lower(c.slug), term)
  }

  /** `filteredCategories`. */
  function FilteredCategories(cs: seq<UiCategory>, search: string): (r: seq<UiCategory>)
    ensures Lower(search) == [] ==> r == cs
    ensures forall c :: c in r <==> c in cs && (Lower(search) == [] || CategoryMatches(c, Lower(search)))
    ensures IsSubsequence(r, cs)
  {
    var term := Lower(search);
    if term == [] then
      SubsequenceRefl(cs);
      cs
    else
      FilterIsSubsequence(cs, c => CategoryMatches(c, term));
      Filter(cs, c => CategoryMatches(c, term))
  }

  /** The admin product search test: title, CAS number or category
      contains the term, the last two only when present. */
  predicate AdminMatches(p: UiProduct, term: string) {
    || MatchesTerm(p, term)
    || (p.category.Some? && Contains(Lower(p.category.value), term))
  }

  /** `filteredProducts` of the admin screen. */
  function FilteredProducts(ps: seq<UiProduct>, search: string): (r: seq<UiProduct>)
    ensures Lower(search) == [] ==> r == ps
    ensures forall p :: p in r <==> p in ps && (Lower(search) == [] || AdminMatches(p, Lower(search)))
    ensures IsSubsequence(r, ps)
  {
    var term := Lower(search);
    if term == [] then
      SubsequenceRefl(ps);
      ps
    else
      FilterIsSubsequence(ps, p => AdminMatches(p, term));
      Filter(ps, p => AdminMatches(p, term))
  }

  /** Lower-casing makes the searches blind to the case of what is typed. */
  lemma SearchesIgnoreTermCase(cs: seq<UiCategory>, ps: seq<UiProduct>, search: string)
    ensures FilteredCategories(cs, Upper(search)) == FilteredCategories(cs, search)
    ensures FilteredProducts(ps, Upper(search)) == FilteredProducts(ps, search)
  {
    assert Lower(Upper(search)) == Lower(search) by {
      forall i | 0 <= i < |search|
        ensures Lower(Upper(search))[i] == Lower(search)[i]
      {
      }
    }
  }

  /** Every product the catalogue search finds, the admin search finds too. */
  lemma AdminSearchCoversCatalogSearch(ps: seq<UiProduct>, search: string, p: UiProduct)
    requires p in ps && MatchesTerm(p, Lower(search))
    ensures p in FilteredProducts(ps, search)
  {
  }

  // ------------------------------------------------------------ add product

  /** The product form's raw values; `reset()` leaves every control null. */
  datatype ProductForm = ProductForm(
    title: Option<string>,
    casNumber: Option<string>,
    imageUrl: Option<string>,
    description: Option<string>,
    categoryId: Option<string>)

  /** `Validators.required` on a text control: neither null nor empty
      (whitespace counts as a value). */
  predicate Required(v: Option<string>) {
    v.Some? && |v.value| > 0
  }

  /** The form is valid when title and category id are filled in. */
  predicate FormValid(f: ProductForm) {
    Required(f.title) && Required(f.categoryId)
  }

  /** The product `onSubmitProduct` sends. */
  datatype NewProduct = NewProduct(
    title: Option<string>,
    casNumber: Option<string>,
    imageUrl: Option<string>,
    description: Option<string>,
    category: string,
    categoryEntity: Option<UiCategory>,
    slug: string,
    anchor: string)

  /** `categories.find(c => c.id === n)`: the first category with that id.
      `n` is the numeric reading of the form's text, `None` when it is not
      an integer (NaN or a fraction, which equal no id). */
  function FindCategory(cs: seq<UiCategory>, n: Option<int>): (r: Option<UiCategory>)
    ensures r.None? <==> forall i :: 0 <= i < |cs| ==> n != Some(cs[i].id)
    ensures r.Some? ==> exists i :: 0 <= i < |cs| && cs[i] == r.value && n == Some(cs[i].id)
                          && forall j :: 0 <= j < i ==> n != Some(cs[j].id)
  {
    if |cs| == 0 then None
    else if n == Some(cs[0].id) then Some(cs[0])
    else
      var rest := FindCategory(cs[1..], n);
      assert forall i :: 1 <= i < |cs| ==> cs[i] == cs[1..][i - 1];
      assert rest.Some? ==> exists i :: 1 <= i < |cs| && cs[i] == rest.value && n == Some(cs[i].id)
                              && forall j :: 0 <= j < i ==> n != Some(cs[j].id) by {
        if rest.Some? {
          var k :| 0 <= k < |cs[1..]| && cs[1..][k] == rest.value && n == Some(cs[1..][k].id)
                   && forall j :: 0 <= j < k ==> n != Some(cs[1..][j].id);
          assert forall j :: 0 <= j < k + 1 ==> n != Some(cs[j].id) by {
            forall j | 0 <= j < k + 1
              ensures n != Some(cs[j].id)
            {
              if j > 0 {
                assert cs[j] == cs[1..][j - 1];
              }
            }
          }
          assert cs[k + 1] == rest.value;
        }
      }
      rest
  }

  /** `onSubmitProduct`: nothing for an invalid form; otherwise the form's
      fields, the matching category's name (or "") as `category`, the
      matching category itself, and empty slug and anchor. `toNumber` is
      the unary `+` on the category id's text. */
  function OnSubmitProduct(f: ProductForm, cs: seq<UiCategory>, toNumber: string -> Option<int>): (r: Option<NewProduct>)
    ensures r.None? <==> !FormValid(f)
    ensures r.Some? ==>
      && r.value.title == f.title && r.value.casNumber == f.casNumber
      && r.value.imageUrl == f.imageUrl && r.value.description == f.description
      && r.value.slug == [] && r.value.anchor == []
      && r.value.categoryEntity == FindCategory(cs, toNumber(f.categoryId.value))
      && (r.value.categoryEntity.None? ==> r.value.category == [])
      && (r.value.categoryEntity.Some? ==> r.value.category == r.value.categoryEntity.value.name)
  {
    if !FormValid(f) then None
    else
      var selected := FindCategory(cs, toNumber(f.categoryId.value));
      Some(NewProduct(f.title, f.casNumber, f.imageUrl, f.description,
                      if selected.Some? then selected.value.name else "",
                      selected, "", ""))
  }

  /** With distinct category ids, the submitted product names the one
      category whose id the form holds. */
  lemma SubmitNamesChosenCategory(f: ProductForm, cs: seq<UiCategory>, toNumber: string -> Option<int>, k: int)
    requires FormValid(f)
    requires forall i, j :: 0 <= i < j < |cs| ==> cs[i].id != cs[j].id
    requires 0 <= k < |cs| && toNumber(f.categoryId.value) == Some(cs[k].id)
    ensures OnSubmitProduct(f, cs, toNumber).value.category == cs[k].name
  {
    var c := FindCategory(cs, toNumber(f.categoryId.value));
    var i :| 0 <= i < |cs| && cs[i] == c.value && toNumber(f.categoryId.value) == Some(cs[i].id)
             && forall j :: 0 <= j < i ==> toNumber(f.categoryId.value) != Some(cs[j].id);
    assert i == k;
  }
}
