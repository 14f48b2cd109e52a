/** The persistent entities of the catalogue backend: Product, Category and
    ContactRequest, with their constructors, the Product setters that keep
    the legacy category-name column, and the per-row constraints their
    annotations declare. Setters are functions returning the updated value. */
module Entities {
  import opened Wrappers
  import opened Text
  import opened BeanValidation

  /** A Java `String` field; `None` is null. */
  type JString = Option<string>

  /** A Java `Long` field; `None` is null. */
  type JLong = Option<int>

  /** A point in time as the persistence layer's clock reports it. */
  type Timestamp = int

  /** What a Product's category relation exposes of the Category it points
      to: the Category's id and its name. */
  datatype CategoryRef = CategoryRef(id: JLong, name: JString)

  /** `category` is the relation to a Category; `categoryName` is the legacy
      string column kept beside it. */
  datatype Product = Product(
    id: JLong,
    title: JString,
    casNumber: JString,
    imageUrl: JString,
    description: JString,
    slug: JString,
    anchor: JString,
    category: Option<CategoryRef>,
    categoryName: JString)

  /** `products` is the owned Product list (None when it is null). */
  datatype Category = Category(
    id: JLong,
    name: JString,
    slug: JString,
    url: JString,
    products: Option<seq<Product>>)

  datatype ContactRequest = ContactRequest(
    id: JLong,
    name: JString,
    email: JString,
    phone: JString,
    message: JString,
    countryCode: JString,
    mobileNumber: JString,
    productId: JLong,
    complete: bool,
    createdAt: Option<Timestamp>,
    updatedAt: Option<Timestamp>)

  // ---------------------------------------------------------------- Product

  /** `new Product()`: every field null. */
  function EmptyProduct(): Product {
    Product(None, None, None, None, None, None, None, None, None)
  }

  /** The relation view of a Category. */
  function RefOf(c: Category): CategoryRef {
    CategoryRef(c.id, c.name)
  }

  /** The five-argument constructor: the category is given by name only. */
  function NewProductByName(title: JString, casNumber: JString, imageUrl: JString,
                            description: JString, category: JString): Product
  {
    EmptyProduct().(title := title, casNumber := casNumber, imageUrl := imageUrl,
                    description := description, categoryName := category)
  }

  /** The four-argument constructor: the category is given as an entity and
      its name is copied into the legacy column. */
  function NewProductInCategory(title: JString, slug: JString, anchor: JString,
                                category: Option<Category>): Product
  {
    EmptyProduct().(title := title, slug := slug, anchor := anchor,
                    category := if category.Some? then Some(RefOf(category.value)) else None,
                    categoryName := if category.Some? then category.value.name else None)
  }

  /** `setCategoryEntity`: sets the relation; a non-null Category also
      refreshes the legacy name, a null one leaves the old name in place. */
  function SetCategoryEntity(p: Product, category: Option<Category>): (r: Product)
    ensures r.(category := p.category, categoryName := p.categoryName) == p
  {
    match category
    case Some(c) => p.(category := Some(RefOf(c)), categoryName := c.name)
    case None => p.(category := None)
  }

  /** `getCategory`: the legacy name if it is set, else the related
      Category's name, else null. */
  function GetCategory(p: Product): JString {
    if p.categoryName.Some? then p.categoryName
    else if p.category.Some? then p.category.value.name
    else None
  }

  /** `setCategory(String)`: writes the legacy name only. */
  function SetCategory(p: Product, name: JString): (r: Product)
    ensures r.(categoryName := p.categoryName) == p
  {
    p.(categoryName := name)
  }

  /** The legacy name agrees with the relation (vacuous without a relation). */
  predicate CategorySynced(p: Product) {
    p.category.Some? ==> p.categoryName == p.category.value.name
  }

  /** The five-argument constructor sets exactly title, CAS number, image,
      description and legacy name; relation, slug, anchor and id stay null. */
  lemma NewProductByNameFields(title: JString, casNumber: JString, imageUrl: JString,
                               description: JString, category: JString)
    ensures var p := NewProductByName(title, casNumber, imageUrl, description, category);
      && p.id.None? && p.category.None? && p.slug.None? && p.anchor.None?
      && p.title == title && p.casNumber == casNumber && p.imageUrl == imageUrl
      && p.description == description && GetCategory(p) == category
  {
  }

  /** The four-argument constructor records the Category's name (null for a
      null Category) and leaves CAS number, image, description and id null;
      the product starts out synchronised with its relation. */
  lemma NewProductInCategoryFields(title: JString, slug: JString, anchor: JString,
                                   category: Option<Category>)
    ensures var p := NewProductInCategory(title, slug, anchor, category);
      && p.id.None? && p.casNumber.None? && p.imageUrl.None? && p.description.None?
      && p.title == title && p.slug == slug && p.anchor == anchor
      && (category.Some? ==> p.category == Some(RefOf(category.value)) && GetCategory(p) == category.value.name)
      && (category.None? ==> p.category.None? && GetCategory(p).None?)
      && CategorySynced(p)
  {
  }

  /** Assigning a non-null Category makes `getCategory` report its name and
      re-synchronises the legacy column. */
  lemma SetCategoryEntitySyncs(p: Product, c: Category)
    ensures var r := SetCategoryEntity(p, Some(c));
      r.category == Some(RefOf(c)) && r.categoryName == c.name && CategorySynced(r)
      && (c.name.Some? ==> GetCategory(r) == c.name)
  {
  }

  /** Clearing the relation keeps the old legacy name, so `getCategory`
      still reports it whenever it was set. */
  lemma SetCategoryEntityNullKeepsName(p: Product)
    ensures var r := SetCategoryEntity(p, None);
      r.category.None? && r.categoryName == p.categoryName && GetCategory(r) == p.categoryName
  {
  }

  /** `getCategory` prefers the legacy name, falls back to the relation, and
      is null only when both are. */
  lemma GetCategoryCases(p: Product)
    ensures p.categoryName.Some? ==> GetCategory(p) == p.categoryName
    ensures p.categoryName.None? && p.category.Some? ==> GetCategory(p) == p.category.value.name
    ensures GetCategory(p).None? <==> p.categoryName.None? && (p.category.None? || p.category.value.name.None?)
  {
  }

  /** `setCategory` never touches the relation, so on a product related to a
      Category it can make `getCategory` disagree with that Category's name. */
  lemma SetCategoryCanDiverge()
    ensures var c := Category(Some(1), Some("Solvents"), Some("solvents"), Some("u"), Some([]));
      var p := SetCategory(SetCategoryEntity(EmptyProduct(), Some(c)), Some("Acids"));
      p.category == Some(RefOf(c)) && GetCategory(p) != c.name && !CategorySynced(p)
  {
  }

  /** Column and entity constraints of one Product row: the title column
      is NOT NULL, the description column holds 2000 characters, and the
      other text columns hold the default length. */
  predicate ProductRowOk(p: Product) {
    p.title.Some? && FitsColumn(p.description, 2000) && DefaultColumnsFit(p)
  }

  /** The text columns that declare no length (title, CAS number, image
      URL, slug, anchor and the legacy category name) hold 255 characters. */
  predicate DefaultColumnsFit(p: Product) {
    && FitsColumn(p.title, DefaultColumnLength) && FitsColumn(p.casNumber, DefaultColumnLength)
    && FitsColumn(p.imageUrl, DefaultColumnLength) && FitsColumn(p.slug, DefaultColumnLength)
    && FitsColumn(p.anchor, DefaultColumnLength) && FitsColumn(p.categoryName, DefaultColumnLength)
  }

  // --------------------------------------------------------------- Category

  /** The three-argument constructor: no id, an empty product list. */
  function NewCategory(name: JString, slug: JString, url: JString): (c: Category)
    ensures c.id.None? && c.products == Some([])
    ensures c.name == name && c.slug == slug && c.url == url
  {
    Category(None, name, slug, url, Some([]))
  }

  /** `Category.builder()...build()` with the product list left unset: the
      `@Builder.Default` empty list. */
  function BuildCategory(id: JLong, name: JString, slug: JString, url: JString): (c: Category)
    ensures c.products == Some([])
    ensures c.id == id && c.name == name && c.slug == slug && c.url == url
  {
    Category(id, name, slug, url, Some([]))
  }

  /** The per-row constraints of a Category: name, slug and url are
      `@NotBlank`; the name and slug columns hold 100 characters. Uniqueness
      is a property of the whole table and lives with the store. */
  predicate CategoryRowOk(c: Category) {
    && NotBlank(c.name) && NotBlank(c.slug) && NotBlank(c.url)
    && FitsColumn(c.name, 100) && FitsColumn(c.slug, 100)
  }

  /** A well-formed row has non-empty name, slug and url. */
  lemma CategoryRowOkNonEmpty(c: Category)
    requires CategoryRowOk(c)
    ensures |c.name.value| > 0 && |c.slug.value| > 0 && |c.url.value| > 0
    ensures |c.name.value| <= 100 && |c.slug.value| <= 100
  {
    NotBlankNonEmpty(c.name);
    NotBlankNonEmpty(c.slug);
    NotBlankNonEmpty(c.url);
  }

  // --------------------------------------------------------- ContactRequest

  /** `ContactRequest.builder()` with name, email, phone and message set:
      every other field is null, and `complete` takes its default, false. */
  function BuildContactRequest(name: JString, email: JString, phone: JString, message: JString): (r: ContactRequest)
    ensures !r.complete
    ensures r.id.None? && r.countryCode.None? && r.mobileNumber.None? && r.productId.None?
    ensures r.createdAt.None? && r.updatedAt.None?
    ensures r.name == name && r.email == email && r.phone == phone && r.message == message
  {
    ContactRequest(None, name, email, phone, message, None, None, None, false, None, None)
  }

  /** The per-row constraints of a ContactRequest: name, email and message
      are `@NotBlank`, email is `@Email` (the predicate `isEmail`; null is
      valid for it), and the column lengths are name 100, email 100, phone
      20, country code 3 and mobile number 20. */
  predicate ContactRowOk(r: ContactRequest, isEmail: string -> bool) {
    && NotBlank(r.name) && NotBlank(r.email) && NotBlank(r.message)
    && (r.email.Some? ==> isEmail(r.email.value))
    && FitsColumn(r.name, 100) && FitsColumn(r.email, 100)
    && FitsColumn(r.phone, 20) && FitsColumn(r.countryCode, 3) && FitsColumn(r.mobileNumber, 20)
  }
}
