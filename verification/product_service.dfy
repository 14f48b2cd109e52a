/** The product service: the filtered and sorted listing, lookup by id,
    create, update, delete and search. Every operation takes the store and
    returns its answer together with the store after the call; an `Err`
    leaves the store as it was (the transaction rolls back). */
module ProductService {
  import opened Wrappers
  import opened Text
  import opened Entities
  import opened Dtos
  import opened Store
  import Tables
  import Seqs
  import Sorting
  import ProductMapper

  /** The category label that means "no category filter". */
  const AllProductsLabel := "All Products"

  /** The derived finder on title or CAS number: a case-insensitive
      substring match on either column; a null column matches nothing. */
  predicate MatchesQuery(p: Product, q: string) {
    || (p.title.Some? && ContainsIgnoreCase(p.title.value, q))
    || (p.casNumber.Some? && ContainsIgnoreCase(p.casNumber.value, q))
  }

  /** A query is used when it is present and not blank. */
  predicate HasQuery(query: JString) {
    query.Some? && !JavaIsBlank(query.value)
  }

  /** A category filter is used when it is present, not blank and not the
      "All Products" label in any case. */
  predicate HasCategory(category: JString) {
    category.Some? && !JavaIsBlank(category.value) && !EqualsIgnoreCase(AllProductsLabel, category.value)
  }

  /** Sorting by title is requested by "name" in any case. */
  predicate SortsByName(sort: JString) {
    sort.Some? && EqualsIgnoreCase("name", sort.value)
  }

  /** `keep`-selection of `all`: everything selected is kept, everything
      kept is selected. */
  ghost predicate SelectsExactly(r: seq<Product>, all: seq<Product>, keep: Product -> bool) {
    && (forall i :: 0 <= i < |r| ==> keep(r[i]) && r[i] in all)
    && (forall p :: p in all && keep(p) ==> p in r)
  }

  /** The first half of `getAllProducts`: which products are listed. A
      usable query wins over the category; the category finder is the
      parameter `categoryMatches` (the derived `findByCategoryIgnoreCase`);
      otherwise everything is listed. The products come in the table's
      fixed order: each finder is modelled as a filter of it, although
      without ORDER BY the database promises no order. */
  function Select(db: Db, category: JString, query: JString,
                  categoryMatches: (Product, string) -> bool): (r: seq<Product>)
    requires Tables.Valid(db.products)
    ensures Seqs.IsSubsequence(r, AllProducts(db))
    ensures HasQuery(query) ==> SelectsExactly(r, AllProducts(db), p => MatchesQuery(p, query.value))
    ensures !HasQuery(query) && HasCategory(category) ==>
      SelectsExactly(r, AllProducts(db), p => categoryMatches(p, category.value))
    ensures !HasQuery(query) && !HasCategory(category) ==> r == AllProducts(db)
  {
    var all := AllProducts(db);
    if HasQuery(query) then
      var keep := p => MatchesQuery(p, query.value);
      Seqs.FilterIsSubsequence(all, keep);
      Seqs.Filter(all, keep)
    else if HasCategory(category) then
      var keep := p => categoryMatches(p, category.value);
      Seqs.FilterIsSubsequence(all, keep);
      Seqs.Filter(all, keep)
    else
      Seqs.SubsequenceRefl(all);
      all
  }

  function TitleKey(p: Product): string {
    p.title.GetOr("")
  }

  function DtoTitle(d: ProductDto): string {
    d.title.GetOr("")
  }

  /** Every selected product has a title: stored rows are well-formed. */
  lemma SelectedHaveTitles(db: Db, category: JString, query: JString,
                           categoryMatches: (Product, string) -> bool)
    requires CatalogOk(db)
    ensures var sel := Select(db, category, query, categoryMatches);
      forall i :: 0 <= i < |sel| ==> sel[i].title.Some?
  {
    var all := AllProducts(db);
    var sel := Select(db, category, query, categoryMatches);
    forall i | 0 <= i < |sel|
      ensures sel[i].title.Some?
    {
      assert sel[i] in all;
      var j :| 0 <= j < |all| && all[j] == sel[i];
      assert ProductRowOk(all[j]);
    }
  }

  /** The DTOs of `sel` ordered by title under `compareToIgnoreCase`. */
  function SortedDtos(sel: seq<Product>): (r: seq<ProductDto>)
    requires forall i :: 0 <= i < |sel| ==> sel[i].title.Some?
    ensures |r| == |sel|
    ensures multiset(r) == multiset(Seqs.Map(sel, ProductMapper.DtoOf))
    ensures Sorting.SortedBy(r, DtoTitle, Sorting.LeIgnoreCase)
    ensures forall i :: 0 <= i < |r| ==> r[i].title.Some?
  {
    Sorting.LeIgnoreCaseIsTotalPreorder();
    var ordered := Sorting.SortBy(sel, TitleKey, Sorting.LeIgnoreCase);
    Seqs.MapPermutation(ordered, sel, ProductMapper.DtoOf);
    var r := Seqs.Map(ordered, ProductMapper.DtoOf);
    forall i | 0 <= i < |r|
      ensures r[i].title.Some?
    {
      assert ordered[i] in multiset(sel);
    }
    r
  }

  /** `getAllProducts`: one DTO per selected product; in store order, or,
      when sorting by name, a permutation sorted by title under
      `compareToIgnoreCase`. Every listed DTO has a title, so the
      comparator never sees null. */
  function GetAllProducts(db: Db, category: JString, query: JString, sort: JString,
                          categoryMatches: (Product, string) -> bool): (r: seq<ProductDto>)
    requires CatalogOk(db)
    ensures var sel := Select(db, category, query, categoryMatches);
      && |r| == |sel|
      && (!SortsByName(sort) ==> forall i :: 0 <= i < |r| ==> r[i] == ProductMapper.DtoOf(sel[i]))
      && (SortsByName(sort) ==>
            && multiset(r) == multiset(Seqs.Map(sel, ProductMapper.DtoOf))
            && Sorting.SortedBy(r, DtoTitle, Sorting.LeIgnoreCase))
    ensures forall i :: 0 <= i < |r| ==> r[i].title.Some?
  {
    var sel := Select(db, category, query, categoryMatches);
    SelectedHaveTitles(db, category, query, categoryMatches);
    if SortsByName(sort) then SortedDtos(sel)
    else Seqs.Map(sel, ProductMapper.DtoOf)
  }

  /** The message of the not-found error. */
  function NotFoundMessage(id: int): string {
    "Product not found with id: " + IntToString(id)
  }

  /** `getProductById`. */
  function GetProductById(db: Db, id: int): (r: Result<ProductDto>)
    requires CatalogOk(db)
    ensures r.Ok? <==> id in db.products.rows
    ensures r.Ok? ==> r.value.id == Some(id) && r.value == ProductMapper.DtoOf(Live(db, db.products.rows[id]))
    ensures r.Err? ==> r.error == NotFound(NotFoundMessage(id))
  {
    match Tables.Find(db.products, id)
    case None => Err(NotFound(NotFoundMessage(id)))
    case Some(p) => Ok(ProductMapper.DtoOf(Live(db, p)))
  }

  /** The DTO's values fit the products table: a title, a description of
      at most 2000 characters, and at most 255 in every other text column. */
  predicate ColumnsFit(dto: ProductDto) {
    && dto.title.Some? && BeanValidation.FitsColumn(dto.description, 2000)
    && BeanValidation.FitsColumn(dto.title, BeanValidation.DefaultColumnLength)
    && BeanValidation.FitsColumn(dto.casNumber, BeanValidation.DefaultColumnLength)
    && UnsizedFieldsFit(dto)
  }

  /** `createProduct`: the DTO becomes an entity without a category
      relation and is saved. The answer is the request itself with the
      stored id, a null category id and null audit fields. It is refused
      exactly when the title is null or a value is longer than its column. A
      DTO that passed validation can still be refused: validation does not
      bound the image URL, slug, anchor or category name, whose columns
      hold 255 characters. */
  function CreateProduct(db: Db, dto: ProductDto, newId: int): (r: Result<(Db, ProductDto)>)
    requires CatalogOk(db) && newId !in db.products.rows
    ensures ProductDtoValid(dto) ==> (r.Ok? <==> UnsizedFieldsFit(dto))
    ensures r.Ok? <==> ColumnsFit(dto)
    ensures r.Err? ==> r.error == ConstraintViolation("products")
    ensures r.Ok? ==>
      var (db', out) := r.value;
      && CatalogOk(db')
      && db'.categories == db.categories && db'.contacts == db.contacts
      && out == dto.(id := out.id, categoryId := None, createdBy := None, lastModifiedBy := None)
      && out.id.Some?
      && (if dto.id.Some? && dto.id.value in db.products.rows then out.id == dto.id else out.id == Some(newId))
      && db'.products.rows == db.products.rows[out.id.value := ProductMapper.EntityOf(dto).(id := out.id)]
  {
    assert ProductDtoValid(dto) ==> (ProductRowOk(ProductMapper.EntityOf(dto)) <==> UnsizedFieldsFit(dto)) by {
      if ProductDtoValid(dto) {
        ProductMapper.ValidDtoGivesValidRow(dto);
      }
    }
    var saved :- SaveProduct(db, ProductMapper.EntityOf(dto), newId);
    Ok((saved.0, ProductMapper.DtoOf(saved.1)))
  }

  /** `updateProduct`: an unknown id is not found; otherwise the seven
      scalars are overwritten from the DTO (id and category relation stay)
      and the row is saved in place, unless the title is null or a value is
      longer than its column. */
  function UpdateProduct(db: Db, id: int, dto: ProductDto): (r: Result<(Db, ProductDto)>)
    requires CatalogOk(db)
    ensures id !in db.products.rows ==> r == Err(NotFound(NotFoundMessage(id)))
    ensures id in db.products.rows ==>
      (r.Ok? <==> ColumnsFit(dto))
    ensures r.Err? && id in db.products.rows ==> r.error == ConstraintViolation("products")
    ensures r.Ok? ==>
      var (db', out) := r.value;
      var before := db.products.rows[id];
      var updated := ProductMapper.EntityOf(dto).(id := Some(id), category := before.category);
      && CatalogOk(db')
      && db'.categories == db.categories && db'.contacts == db.contacts
      && db'.products.order == db.products.order
      && db'.products.rows == db.products.rows[id := updated]
      && out == ProductMapper.DtoOf(Live(db', updated))
  {
    match Tables.Find(db.products, id)
    case None => Err(NotFound(NotFoundMessage(id)))
    case Some(p) =>
      var e := ProductMapper.UpdateEntityFromDto(Some(dto), Some(p)).value;
      ProductMapper.UpdateFrame(dto, p);
      var saved :- SaveProduct(db, e, Tables.NextKey(db.products));
      Ok((saved.0, ProductMapper.DtoOf(Live(saved.0, saved.1))))
  }

  /** `deleteProduct`: an unknown id is not found; otherwise that row, and
      only it, is removed. */
  function DeleteProduct(db: Db, id: int): (r: Result<Db>)
    requires CatalogOk(db)
    ensures r.Ok? <==> id in db.products.rows
    ensures r.Err? ==> r.error == NotFound(NotFoundMessage(id))
    ensures r.Ok? ==>
      && CatalogOk(r.value)
      && r.value.categories == db.categories && r.value.contacts == db.contacts
      && r.value.products.rows == db.products.rows - {id}
  {
    if id !in db.products.rows then Err(NotFound(NotFoundMessage(id)))
    else Ok(DeleteProductRow(db, id))
  }

  /** `searchProducts`: the DTOs of exactly the products matching the query
      on title or CAS number, in store order. Unlike the listing, a blank
      query is used as it is. */
  function SearchProducts(db: Db, query: string): (r: seq<ProductDto>)
    requires CatalogOk(db)
    ensures |r| <= |AllProducts(db)|
    ensures forall d :: d in r <==>
      exists p :: p in AllProducts(db) && MatchesQuery(p, query) && d == ProductMapper.DtoOf(p)
  {
    var found := Seqs.Filter(AllProducts(db), p => MatchesQuery(p, query));
    Seqs.MapFilterMembers(AllProducts(db), p => MatchesQuery(p, query), ProductMapper.DtoOf);
    var r := Seqs.Map(found, ProductMapper.DtoOf);
    r
  }

  // ------------------------------------------------------------ properties

  /** With a usable query the category filter has no effect on the listing. */
  lemma QueryIgnoresCategory(db: Db, c1: JString, c2: JString, query: JString,
                             m1: (Product, string) -> bool, m2: (Product, string) -> bool)
    requires Tables.Valid(db.products) && HasQuery(query)
    ensures Select(db, c1, query, m1) == Select(db, c2, query, m2)
  {
  }

  /** Sorting by name changes the order of the listing and nothing else. */
  lemma SortOnlyReorders(db: Db, category: JString, query: JString, sort: JString,
                         categoryMatches: (Product, string) -> bool)
    requires CatalogOk(db)
    ensures multiset(GetAllProducts(db, category, query, sort, categoryMatches))
         == multiset(GetAllProducts(db, category, query, None, categoryMatches))
  {
    var sel := Select(db, category, query, categoryMatches);
    var plain := GetAllProducts(db, category, query, None, categoryMatches);
    assert plain == Seqs.Map(sel, ProductMapper.DtoOf);
  }

  /** `searchProducts` with a non-blank query answers what the unsorted
      listing answers for that query, whatever the category. */
  lemma SearchAgreesWithListing(db: Db, query: string, category: JString,
                                categoryMatches: (Product, string) -> bool)
    requires CatalogOk(db) && !JavaIsBlank(query)
    ensures SearchProducts(db, query) == GetAllProducts(db, category, Some(query), None, categoryMatches)
  {
    var listed := GetAllProducts(db, category, Some(query), None, categoryMatches);
    var sel := Select(db, category, Some(query), categoryMatches);
    assert sel == Seqs.Filter(AllProducts(db), p => MatchesQuery(p, query));
    assert listed == Seqs.Map(sel, ProductMapper.DtoOf);
  }

  /** Every string contains the empty string. */
  lemma ContainsEmpty(s: string)
    ensures ContainsIgnoreCase(s, "")
  {
    assert Upper("") == "";
    assert Factor(Upper(s), 0, 0) == "";
  }

  /** An empty search query matches every stored product, because every
      stored product has a title. */
  lemma EmptySearchListsAll(db: Db)
    requires CatalogOk(db)
    ensures SearchProducts(db, "") == Seqs.Map(AllProducts(db), ProductMapper.DtoOf)
  {
    var all := AllProducts(db);
    forall i | 0 <= i < |all|
      ensures MatchesQuery(all[i], "")
    {
      ContainsEmpty(all[i].title.value);
    }
    Seqs.FilterAll(all, p => MatchesQuery(p, ""));
  }

  /** Validation does not bound the default-length columns: tin with a
      256-character image URL passes validation and is still refused. */
  lemma ValidDtoCanOverflowColumn(db: Db, newId: int, url: string, dto: ProductDto)
    requires CatalogOk(db) && newId !in db.products.rows
    requires url == seq(256, _ => 'a')
    requires dto == ProductDto(None, Some("Tin"), Some("7440-31-5"), Some(url), None, None, None,
                               Some(1), None, None, None)
    ensures ProductDtoValid(dto)
    ensures CreateProduct(db, dto, newId) == Err(ConstraintViolation("products"))
  {
    assert !IsJavaTrimmed(dto.title.value[0]) && !IsJavaTrimmed(dto.casNumber.value[0]);
    BeanValidation.NotBlankIffVisibleChar(dto.title);
    BeanValidation.NotBlankIffVisibleChar(dto.casNumber);
  }

  /** What `createProduct` answers is what `getProductById` then reads. */
  lemma CreateThenGet(db: Db, dto: ProductDto, newId: int)
    requires CatalogOk(db) && newId !in db.products.rows
    requires CreateProduct(db, dto, newId).Ok?
    ensures var (db', out) := CreateProduct(db, dto, newId).value;
      GetProductById(db', out.id.value) == Ok(out)
  {
  }

  /** What `updateProduct` answers is what `getProductById` then reads, and
      the product stays in its category. */
  lemma UpdateThenGet(db: Db, id: int, dto: ProductDto)
    requires CatalogOk(db)
    requires UpdateProduct(db, id, dto).Ok?
    ensures var (db', out) := UpdateProduct(db, id, dto).value;
      && GetProductById(db', id) == Ok(out)
      && out.categoryId == GetProductById(db, id).value.categoryId
      && out.title == dto.title && out.casNumber == dto.casNumber
  {
  }

  /** After `deleteProduct` the id is not found, and a second delete fails. */
  lemma DeleteThenGet(db: Db, id: int)
    requires CatalogOk(db)
    requires DeleteProduct(db, id).Ok?
    ensures var db' := DeleteProduct(db, id).value;
      && GetProductById(db', id) == Err(NotFound(NotFoundMessage(id)))
      && DeleteProduct(db', id) == Err(NotFound(NotFoundMessage(id)))
  {
  }
}
