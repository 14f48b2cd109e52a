/** The data transfer objects of the REST layer and the Bean Validation
    constraints they declare, as predicates. `@Size` accepts null; `@NotBlank`
    rejects null. The `@Email` check is the parameter `isEmail`. */
module Dtos {
  import opened Wrappers
  import opened Text
  import opened BeanValidation
  import opened Entities

  datatype ProductDto = ProductDto(
    id: JLong,
    title: JString,
    casNumber: JString,
    imageUrl: JString,
    description: JString,
    slug: JString,
    anchor: JString,
    categoryId: JLong,
    categoryName: JString,
    createdBy: JLong,
    lastModifiedBy: JLong)

  datatype CategoryDto = CategoryDto(
    id: JLong,
    name: JString,
    slug: JString,
    url: JString,
    productIds: Option<seq<JLong>>)

  datatype ContactRequestDto = ContactRequestDto(
    id: JLong,
    name: JString,
    email: JString,
    message: JString,
    phone: JString)

  /** ProductDto: title 3-255 and not blank, CAS number 3-50 and not blank,
      description at most 2000, category id present. */
  predicate ProductDtoValid(d: ProductDto) {
    && NotBlank(d.title) && Size(d.title, 3, 255)
    && NotBlank(d.casNumber) && Size(d.casNumber, 3, 50)
    && Size(d.description, 0, 2000)
    && NotNull(d.categoryId)
  }

  /** The ProductDto fields that carry no `@Size` but are stored in a
      default-length column: image URL, slug, anchor and category name are
      each null or at most 255 characters long. */
  predicate UnsizedFieldsFit(d: ProductDto) {
    && FitsColumn(d.imageUrl, DefaultColumnLength) && FitsColumn(d.slug, DefaultColumnLength)
    && FitsColumn(d.anchor, DefaultColumnLength) && FitsColumn(d.categoryName, DefaultColumnLength)
  }

  /** CategoryDto: name and slug 2-100 and not blank, url not blank. */
  predicate CategoryDtoValid(d: CategoryDto) {
    && NotBlank(d.name) && Size(d.name, 2, 100)
    && NotBlank(d.slug) && Size(d.slug, 2, 100)
    && NotBlank(d.url)
  }

  /** ContactRequestDto: name 2-100 and not blank, email not blank and
      well-formed, message 10-2000 and not blank, phone at most 20. */
  predicate ContactRequestDtoValid(d: ContactRequestDto, isEmail: string -> bool) {
    && NotBlank(d.name) && Size(d.name, 2, 100)
    && NotBlank(d.email) && (d.email.Some? ==> isEmail(d.email.value))
    && NotBlank(d.message) && Size(d.message, 10, 2000)
    && Size(d.phone, 0, 20)
  }

  /** Only title, CAS number, description and category id decide whether a
      ProductDto is accepted: every other field may hold any value. */
  lemma ProductDtoFreeFields(d: ProductDto, id: JLong, imageUrl: JString, slug: JString, anchor: JString,
                             categoryName: JString, createdBy: JLong, lastModifiedBy: JLong)
    ensures ProductDtoValid(d) <==>
      ProductDtoValid(d.(id := id, imageUrl := imageUrl, slug := slug, anchor := anchor,
                         categoryName := categoryName, createdBy := createdBy, lastModifiedBy := lastModifiedBy))
  {
  }

  /** Only name, slug and url decide whether a CategoryDto is accepted: id
      and product ids may hold any value. A name of legal length made only
      of spaces is refused. */
  lemma CategoryDtoFreeFields(d: CategoryDto, id: JLong, productIds: Option<seq<JLong>>)
    ensures CategoryDtoValid(d) <==> CategoryDtoValid(d.(id := id, productIds := productIds))
    ensures d.name == Some("   ") ==> !CategoryDtoValid(d)
  {
    if d.name == Some("   ") {
      NotBlankIffVisibleChar(d.name);
    }
  }

  /** The id of a ContactRequestDto never decides whether it is accepted. */
  lemma ContactRequestDtoFreeFields(d: ContactRequestDto, id: JLong, isEmail: string -> bool)
    ensures ContactRequestDtoValid(d, isEmail) <==> ContactRequestDtoValid(d.(id := id), isEmail)
  {
  }
}
