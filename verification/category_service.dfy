/** The category service: list, lookup by id and by slug, create, update
    and delete. As for products, an `Err` leaves the store as it was. */
module CategoryService {
  import opened Wrappers
  import opened Text
  import opened Entities
  import opened Dtos
  import opened Store
  import Tables
  import Seqs
  import CategoryMapper

  function NotFoundMessage(id: int): string {
    "Category not found with id: " + IntToString(id)
  }

  function SlugNotFoundMessage(slug: string): string {
    "Category not found with slug: " + slug
  }

  /** Every id the DTO of category `k` lists is a stored product related to `k`. */
  lemma ListedIdIsRelated(db: Db, k: int, pid: JLong)
    requires ProductsOk(db.products, db.categories)
    requires pid in Seqs.Map(ProductsOf(db, k), CategoryMapper.IdOf)
    ensures pid.Some? && pid.value in db.products.rows && InCategory(db.products.rows[pid.value], k)
  {
    var all := AllProducts(db);
    var ps := ProductsOf(db, k);
    var ids := Seqs.Map(ps, CategoryMapper.IdOf);
    var i :| 0 <= i < |ids| && ids[i] == pid;
    assert ps[i] in all && InCategory(ps[i], k);
    var j :| 0 <= j < |all| && all[j] == ps[i];
    var q := db.products.order[j];
    assert q in db.products.rows && all[j] == Live(db, db.products.rows[q]);
    assert db.products.rows[q].id == Some(q);
  }

  /** Every stored product related to `k` is listed by the DTO of `k`. */
  lemma RelatedIdIsListed(db: Db, k: int, q: int)
    requires ProductsOk(db.products, db.categories)
    requires q in db.products.rows && InCategory(db.products.rows[q], k)
    ensures Some(q) in Seqs.Map(ProductsOf(db, k), CategoryMapper.IdOf)
  {
    var all := AllProducts(db);
    var ps := ProductsOf(db, k);
    var ids := Seqs.Map(ps, CategoryMapper.IdOf);
    assert q in db.products.order;
    var j :| 0 <= j < |db.products.order| && db.products.order[j] == q;
    assert all[j] == Live(db, db.products.rows[q]);
    assert all[j] in all && InCategory(all[j], k);
    var i :| 0 <= i < |ps| && ps[i] == all[j];
    assert ids[i] == Some(q);
  }

  /** The ids that the DTO of category `k` lists: exactly the stored
      products whose relation points at `k`. */
  lemma ProductIdsOfCategory(db: Db, k: int)
    requires CatalogOk(db)
    ensures forall pid :: pid in Seqs.Map(ProductsOf(db, k), CategoryMapper.IdOf) <==>
      pid.Some? && pid.value in db.products.rows && InCategory(db.products.rows[pid.value], k)
  {
    forall pid | pid in Seqs.Map(ProductsOf(db, k), CategoryMapper.IdOf)
      ensures pid.Some? && pid.value in db.products.rows && InCategory(db.products.rows[pid.value], k)
    {
      ListedIdIsRelated(db, k, pid);
    }
    forall pid: JLong | pid.Some? && pid.value in db.products.rows && InCategory(db.products.rows[pid.value], k)
      ensures pid in Seqs.Map(ProductsOf(db, k), CategoryMapper.IdOf)
    {
      RelatedIdIsListed(db, k, pid.value);
    }
  }

  /** `getAllCategories`: one DTO per stored category in store order, each
      listing exactly the ids of the products related to it. */
  function GetAllCategories(db: Db): (r: seq<CategoryDto>)
    requires CatalogOk(db)
    ensures |r| == |db.categories.order|
    ensures forall i :: 0 <= i < |r| ==>
      var k := db.categories.order[i];
      && k in db.categories.rows
      && r[i].id == Some(k)
      && r[i].name == db.categories.rows[k].name && r[i].slug == db.categories.rows[k].slug
      && r[i].url == db.categories.rows[k].url
      && r[i].productIds.Some?
      && (forall pid :: pid in r[i].productIds.value <==>
            pid.Some? && pid.value in db.products.rows && InCategory(db.products.rows[pid.value], k))
  {
    var r := Seqs.Map(AllCategories(db), CategoryMapper.DtoOf);
    forall i | 0 <= i < |r|
      ensures var k := db.categories.order[i];
        && k in db.categories.rows
        && r[i].productIds == Some(Seqs.Map(ProductsOf(db, k), CategoryMapper.IdOf))
    {
      var k := db.categories.order[i];
      assert db.categories.rows[k].id == Some(k);
    }
    forall k | k in db.categories.rows {
      ProductIdsOfCategory(db, k);
    }
    r
  }

  /** `getCategoryById`. */
  function GetCategoryById(db: Db, id: int): (r: Result<CategoryDto>)
    requires CatalogOk(db)
    ensures r.Ok? <==> id in db.categories.rows
    ensures r.Ok? ==> r.value.id == Some(id)
    ensures r.Ok? ==> r.value == CategoryMapper.DtoOf(Loaded(db, db.categories.rows[id]))
    ensures r.Err? ==> r.error == NotFound(NotFoundMessage(id))
  {
    match Tables.Find(db.categories, id)
    case None => Err(NotFound(NotFoundMessage(id)))
    case Some(c) => Ok(CategoryMapper.DtoOf(Loaded(db, c)))
  }

  predicate HasSlug(c: Category, slug: string) {
    c.slug == Some(slug)
  }

  /** The loaded categories in store order, with their keys. */
  lemma AllCategoriesIndex(db: Db, k: int) returns (i: int)
    requires CatalogOk(db) && k in db.categories.rows
    ensures 0 <= i < |AllCategories(db)| && db.categories.order[i] == k
    ensures AllCategories(db)[i] == Loaded(db, db.categories.rows[k])
  {
    assert k in db.categories.order;
    i :| 0 <= i < |db.categories.order| && db.categories.order[i] == k;
  }

  /** `getCategoryBySlug`: the category with that slug, if any. */
  function GetCategoryBySlug(db: Db, slug: string): (r: Result<CategoryDto>)
    requires CatalogOk(db)
    ensures r.Ok? <==> exists k :: k in db.categories.rows && HasSlug(db.categories.rows[k], slug)
    ensures r.Ok? ==> r.value.slug == Some(slug)
    ensures r.Ok? ==> exists k :: k in db.categories.rows && HasSlug(db.categories.rows[k], slug)
                                  && r.value == CategoryMapper.DtoOf(Loaded(db, db.categories.rows[k]))
    ensures r.Err? ==> r.error == NotFound(SlugNotFoundMessage(slug))
  {
    var all := AllCategories(db);
    var found := Seqs.Filter(all, c => HasSlug(c, slug));
    if |found| == 0 then
      NoSlugMeansNotFound(db, slug);
      Err(NotFound(SlugNotFoundMessage(slug)))
    else
      FoundSlugIsStored(db, slug, found[0]);
      Ok(CategoryMapper.DtoOf(found[0]))
  }

  lemma NoSlugMeansNotFound(db: Db, slug: string)
    requires CatalogOk(db)
    requires |Seqs.Filter(AllCategories(db), c => HasSlug(c, slug))| == 0
    ensures forall k :: k in db.categories.rows ==> !HasSlug(db.categories.rows[k], slug)
  {
    forall k | k in db.categories.rows
      ensures !HasSlug(db.categories.rows[k], slug)
    {
      var i := AllCategoriesIndex(db, k);
    }
  }

  lemma FoundSlugIsStored(db: Db, slug: string, c: Category)
    requires CatalogOk(db)
    requires c in Seqs.Filter(AllCategories(db), c => HasSlug(c, slug))
    ensures exists k :: k in db.categories.rows && HasSlug(db.categories.rows[k], slug)
                        && c == Loaded(db, db.categories.rows[k])
  {
    var all := AllCategories(db);
    assert c in all && HasSlug(c, slug);
    var i :| 0 <= i < |all| && all[i] == c;
    var k := db.categories.order[i];
    assert c == Loaded(db, db.categories.rows[k]);
  }

  /** `createCategory`: the DTO becomes an entity with an empty product list
      and is saved. The answer is the request with the stored id and an
      empty id list. A request that passed validation is refused only when
      another category already has its name or slug. A request carrying the
      id of a stored category overwrites that row, and the merged empty list
      deletes every product of that category through orphan removal. */
  function CreateCategory(db: Db, dto: CategoryDto, newId: int): (r: Result<(Db, CategoryDto)>)
    requires CatalogOk(db) && newId !in db.categories.rows
    ensures r.Ok? <==>
      CategoryRowOk(CategoryMapper.EntityOf(dto))
      && Unique(db.categories, SaveKey(db.categories, dto.id, newId), CategoryMapper.EntityOf(dto))
    ensures
      && CategoryDtoValid(dto)
      && (forall k :: k in db.categories.rows ==>
            db.categories.rows[k].name != dto.name && db.categories.rows[k].slug != dto.slug)
      ==> r.Ok?
    ensures r.Err? ==> r.error == ConstraintViolation("categories")
    ensures r.Ok? ==>
      var (db', out) := r.value;
      && CatalogOk(db')
      && db'.contacts == db.contacts
      && (dto.id.Some? && dto.id.value in db.categories.rows ==>
            forall j :: j in db'.products.rows <==>
              j in db.products.rows && !InCategory(db.products.rows[j], dto.id.value))
      && (!(dto.id.Some? && dto.id.value in db.categories.rows) ==> db'.products == db.products)
      && (forall j :: j in db'.products.rows ==> db'.products.rows[j] == db.products.rows[j])
      && out == dto.(id := out.id, productIds := Some([]))
      && out.id.Some?
      && (if dto.id.Some? && dto.id.value in db.categories.rows then out.id == dto.id else out.id == Some(newId))
      && db'.categories.rows == db.categories.rows[out.id.value := CategoryMapper.EntityOf(dto).(id := out.id)]
  {
    var saved :- SaveCategory(db, CategoryMapper.EntityOf(dto), newId);
    Ok((saved.0, CategoryMapper.DtoOf(saved.1)))
  }

  /** `updateCategory`: an unknown id is not found; otherwise name, slug and
      url of the loaded category are overwritten and the row is saved in
      place. Its product list is the loaded one, so the merge orphans
      nothing and the products table is not written: the legacy category
      names the products carry keep their old value. The answer lists the
      category's products. */
  function UpdateCategory(db: Db, id: int, dto: CategoryDto): (r: Result<(Db, CategoryDto)>)
    requires CatalogOk(db)
    ensures id !in db.categories.rows ==> r == Err(NotFound(NotFoundMessage(id)))
    ensures id in db.categories.rows ==>
      var updated := Loaded(db, db.categories.rows[id]).(name := dto.name, slug := dto.slug, url := dto.url);
      (r.Ok? <==> CategoryRowOk(updated) && Unique(db.categories, id, updated))
    ensures r.Err? && id in db.categories.rows ==> r.error == ConstraintViolation("categories")
    ensures r.Ok? ==>
      var (db', out) := r.value;
      var updated := Loaded(db, db.categories.rows[id]).(name := dto.name, slug := dto.slug, url := dto.url);
      && CatalogOk(db')
      && db'.products == db.products && db'.contacts == db.contacts
      && db'.categories.order == db.categories.order
      && db'.categories.rows == db.categories.rows[id := updated]
      && out.id == Some(id) && out.name == dto.name && out.slug == dto.slug && out.url == dto.url
      && out.productIds.Some?
      && (forall pid :: pid in out.productIds.value <==>
            pid.Some? && pid.value in db.products.rows && InCategory(db.products.rows[pid.value], id))
  {
    if id !in db.categories.rows then Err(NotFound(NotFoundMessage(id)))
    else
      var e := CategoryMapper.UpdateEntityFromDto(Some(dto), Some(Loaded(db, db.categories.rows[id]))).value;
      LoadedOrphansNothing(db, id, e);
      var saved :- SaveCategory(db, e, Tables.NextKey(db.categories));
      ProductIdsOfCategory(saved.0, id);
      Ok((saved.0, CategoryMapper.DtoOf(Loaded(saved.0, saved.1))))
  }

  /** The list `findById` loads holds every product of the category, so
      saving the loaded entity back orphans none of them. */
  lemma LoadedOrphansNothing(db: Db, k: int, c: Category)
    requires CatalogOk(db) && c.products == Some(ProductsOf(db, k))
    ensures forall j :: j in db.products.rows ==> !Orphaned(db.products.rows[j], k, c)
  {
    forall j | j in db.products.rows && InCategory(db.products.rows[j], k)
      ensures Lists(c, db.products.rows[j].id)
    {
      RelatedIdIsListed(db, k, j);
      var ps := ProductsOf(db, k);
      var ids := Seqs.Map(ps, CategoryMapper.IdOf);
      var i :| 0 <= i < |ids| && ids[i] == Some(j);
      assert ps[i] in c.products.value && ps[i].id == db.products.rows[j].id;
    }
  }

  /** `deleteCategory`: an unknown id is not found; otherwise the category
      and every product related to it are removed, and nothing else. */
  function DeleteCategory(db: Db, id: int): (r: Result<Db>)
    requires CatalogOk(db)
    ensures r.Ok? <==> id in db.categories.rows
    ensures r.Err? ==> r.error == NotFound(NotFoundMessage(id))
    ensures r.Ok? ==>
      && CatalogOk(r.value)
      && r.value.contacts == db.contacts
      && r.value.categories.rows == db.categories.rows - {id}
      && (forall j :: j in r.value.products.rows <==> j in db.products.rows && !InCategory(db.products.rows[j], id))
      && (forall j :: j in r.value.products.rows ==> r.value.products.rows[j] == db.products.rows[j])
  {
    if id !in db.categories.rows then Err(NotFound(NotFoundMessage(id)))
    else Ok(DeleteCategoryRow(db, id))
  }

  // ------------------------------------------------------------ properties

  /** Slugs are unique, so looking a category up by its slug finds what
      looking it up by id finds. */
  lemma BySlugAgreesWithById(db: Db, k: int, slug: string)
    requires CatalogOk(db) && k in db.categories.rows && HasSlug(db.categories.rows[k], slug)
    ensures GetCategoryBySlug(db, slug) == GetCategoryById(db, k)
  {
    var r := GetCategoryBySlug(db, slug);
    var j :| j in db.categories.rows && HasSlug(db.categories.rows[j], slug)
             && r.value == CategoryMapper.DtoOf(Loaded(db, db.categories.rows[j]));
    assert j == k;
  }

  /** After renaming a category, its products report the new name through
      the relation while their legacy name column keeps the old value. */
  lemma UpdateLeavesLegacyNames(db: Db, id: int, dto: CategoryDto, pk: int)
    requires CatalogOk(db) && UpdateCategory(db, id, dto).Ok?
    requires pk in db.products.rows && InCategory(db.products.rows[pk], id)
    ensures var db' := UpdateCategory(db, id, dto).value.0;
      && db'.products.rows[pk].categoryName == db.products.rows[pk].categoryName
      && Live(db', db'.products.rows[pk]).category.value.name == dto.name
  {
  }

  /** After `deleteCategory` the id is not found, and no stored product
      refers to it. */
  lemma DeleteThenGet(db: Db, id: int)
    requires CatalogOk(db) && DeleteCategory(db, id).Ok?
    ensures var db' := DeleteCategory(db, id).value;
      && GetCategoryById(db', id) == Err(NotFound(NotFoundMessage(id)))
      && forall j :: j in db'.products.rows ==> !InCategory(db'.products.rows[j], id)
  {
  }
}
