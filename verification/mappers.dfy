/** The entity/DTO mappers. Null maps to null; entity to DTO copies the
    scalars and flattens relations to ids and names; DTO to entity copies
    the scalars and never builds relations; the update form overwrites the
    scalars in place (here: returns the overwritten entity). */
module ProductMapper {
  import opened Wrappers
  import opened Entities
  import opened Dtos

  /** `toDTO` on a non-null Product. The category id comes from the
      relation; the category name is `getCategory()`. Audit fields are null. */
  function DtoOf(p: Product): (d: ProductDto)
    ensures d.id == p.id && d.title == p.title && d.casNumber == p.casNumber
    ensures d.imageUrl == p.imageUrl && d.description == p.description
    ensures d.slug == p.slug && d.anchor == p.anchor
    ensures d.categoryId == (if p.category.Some? then p.category.value.id else None)
    ensures d.categoryName == GetCategory(p)
    ensures d.createdBy.None? && d.lastModifiedBy.None?
  {
    ProductDto(p.id, p.title, p.casNumber, p.imageUrl, p.description, p.slug, p.anchor,
               if p.category.Some? then p.category.value.id else None,
               GetCategory(p), None, None)
  }

  /** `toEntity` on a non-null ProductDto: id, the six scalars and the legacy
      category name; the relation stays null whatever `categoryId` says. */
  function EntityOf(d: ProductDto): (p: Product)
    ensures p.id == d.id && p.title == d.title && p.casNumber == d.casNumber
    ensures p.imageUrl == d.imageUrl && p.description == d.description
    ensures p.slug == d.slug && p.anchor == d.anchor
    ensures p.categoryName == d.categoryName && p.category.None?
  {
    EmptyProduct().(id := d.id, title := d.title, casNumber := d.casNumber, imageUrl := d.imageUrl,
                    description := d.description, slug := d.slug, anchor := d.anchor,
                    categoryName := d.categoryName)
  }

  function ToDto(p: Option<Product>): (r: Option<ProductDto>)
    ensures r.None? <==> p.None?
  {
    match p
    case None => None
    case Some(e) => Some(DtoOf(e))
  }

  function ToEntity(d: Option<ProductDto>): (r: Option<Product>)
    ensures r.None? <==> d.None?
  {
    match d
    case None => None
    case Some(x) => Some(EntityOf(x))
  }

  /** `updateEntityFromDTO`: nothing happens when either side is null;
      otherwise the seven scalars are overwritten, null included. */
  function UpdateEntityFromDto(d: Option<ProductDto>, p: Option<Product>): (r: Option<Product>)
    ensures r.None? <==> p.None?
  {
    if d.None? || p.None? then p
    else
      var x := d.value;
      Some(p.value.(title := x.title, casNumber := x.casNumber, imageUrl := x.imageUrl,
                    description := x.description, slug := x.slug, anchor := x.anchor,
                    categoryName := x.categoryName))
  }

  /** DTO -> entity -> DTO keeps id, the six scalars and the category name;
      category id and the audit fields come back null. */
  lemma RoundTrip(d: ProductDto)
    ensures ToDto(ToEntity(Some(d))) ==
      Some(d.(categoryId := None, createdBy := None, lastModifiedBy := None))
  {
  }

  /** `toDTO` exposes the relation's id, and reports the legacy name, falling
      back to the relation's name only when the legacy name is null. */
  lemma DtoCategoryFields(p: Product)
    ensures p.category.None? ==> DtoOf(p).categoryId.None?
    ensures p.category.Some? ==> DtoOf(p).categoryId == p.category.value.id
    ensures p.categoryName.Some? ==> DtoOf(p).categoryName == p.categoryName
    ensures p.categoryName.None? && p.category.Some? ==> DtoOf(p).categoryName == p.category.value.name
  {
  }

  /** The update changes only the seven scalars: id and relation survive,
      and the result reads back through `toDTO` as the DTO's scalars. */
  lemma UpdateFrame(d: ProductDto, p: Product)
    ensures var r := UpdateEntityFromDto(Some(d), Some(p)).value;
      && r.id == p.id && r.category == p.category
      && r == EntityOf(d).(id := p.id, category := p.category)
  {
  }

  /** With a null side the update is the identity. */
  lemma UpdateNullIsNoop(d: Option<ProductDto>, p: Option<Product>)
    requires d.None? || p.None?
    ensures UpdateEntityFromDto(d, p) == p
  {
  }

  /** Updating with the DTO of the entity itself changes nothing when the
      legacy name is set (so `getCategory` returned it). */
  lemma UpdateWithOwnDtoIsIdentity(p: Product)
    requires p.categoryName.Some?
    ensures UpdateEntityFromDto(Some(DtoOf(p)), Some(p)) == Some(p)
  {
  }

  /** The entity of a valid DTO is a row the products table accepts
      exactly when the fields validation leaves unbounded fit their
      255-character columns. */
  lemma ValidDtoGivesValidRow(d: ProductDto)
    requires ProductDtoValid(d)
    ensures ProductRowOk(EntityOf(d)) <==> UnsizedFieldsFit(d)
  {
  }
}

module CategoryMapper {
  import opened Wrappers
  import opened Entities
  import opened Dtos
  import Seqs

  function IdOf(p: Product): JLong {
    p.id
  }

  /** `toDTO` on a non-null Category: id, name, slug, url, and the ids of the
      owned products in list order (null when the list is null). */
  function DtoOf(c: Category): (d: CategoryDto)
    ensures d.id == c.id && d.name == c.name && d.slug == c.slug && d.url == c.url
    ensures d.productIds.None? <==> c.products.None?
    ensures c.products.Some? ==>
      |d.productIds.value| == |c.products.value|
      && forall i :: 0 <= i < |c.products.value| ==> d.productIds.value[i] == c.products.value[i].id
  {
    CategoryDto(c.id, c.name, c.slug, c.url,
                if c.products.Some? then Some(Seqs.Map(c.products.value, IdOf)) else None)
  }

  /** `toEntity` on a non-null CategoryDto: id, name, slug and url; the
      product ids are ignored and the list takes the default, empty. */
  function EntityOf(d: CategoryDto): (c: Category)
    ensures c.id == d.id && c.name == d.name && c.slug == d.slug && c.url == d.url
    ensures c.products == Some([])
  {
    BuildCategory(d.id, d.name, d.slug, d.url)
  }

  function ToDto(c: Option<Category>): (r: Option<CategoryDto>)
    ensures r.None? <==> c.None?
  {
    match c
    case None => None
    case Some(e) => Some(DtoOf(e))
  }

  function ToEntity(d: Option<CategoryDto>): (r: Option<Category>)
    ensures r.None? <==> d.None?
  {
    match d
    case None => None
    case Some(x) => Some(EntityOf(x))
  }

  /** `updateEntityFromDTO`: no-op on a null side, else overwrite name, slug
      and url. */
  function UpdateEntityFromDto(d: Option<CategoryDto>, c: Option<Category>): (r: Option<Category>)
    ensures r.None? <==> c.None?
  {
    if d.None? || c.None? then c
    else Some(c.value.(name := d.value.name, slug := d.value.slug, url := d.value.url))
  }

  /** DTO -> entity -> DTO keeps id, name, slug and url; the product ids
      come back as the empty list. */
  lemma RoundTrip(d: CategoryDto)
    ensures ToDto(ToEntity(Some(d))) == Some(d.(productIds := Some([])))
  {
  }

  /** The update changes name, slug and url only. */
  lemma UpdateFrame(d: CategoryDto, c: Category)
    ensures var r := UpdateEntityFromDto(Some(d), Some(c)).value;
      && r.id == c.id && r.products == c.products
      && r.name == d.name && r.slug == d.slug && r.url == d.url
  {
  }

  lemma UpdateNullIsNoop(d: Option<CategoryDto>, c: Option<Category>)
    requires d.None? || c.None?
    ensures UpdateEntityFromDto(d, c) == c
  {
  }

  /** A valid DTO yields an entity that satisfies the per-row constraints:
      only uniqueness can still refuse it. */
  lemma ValidDtoGivesValidRow(d: CategoryDto)
    requires CategoryDtoValid(d)
    ensures CategoryRowOk(EntityOf(d))
  {
  }
}
