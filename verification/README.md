# AB chemical catalogue — a Dafny model

This project models the logic of the AB catalogue application. The backend is a Spring Boot service that keeps chemical products, categories and contact requests. The frontend is an Angular shop window that lists, searches and sorts them.

The model covers the following parts:

- **Backend product service.** This is the listing that picks exactly one selection mode: a title/CAS query, else a category, else everything. An optional case-insensitive sort by title follows. It also covers lookup, create, update, delete and search over a store.
- **Category and contact-request services.** These cover the same create, read, update and delete operations. Deleting a category cascades to its products. Slugs are looked up by exact match.
- **Entities and mappers.**
  - `Product` with its legacy category-name cache.
  - `Category` and `ContactRequest`, with the per-row constraints their annotations declare.
  - The two entity/DTO mappers.
  - The Bean Validation predicates of the three DTOs.
- **Slug generator.** `SlugGenerator.generate`.
- **Seed script.** The statement-building loops of the seed-SQL script: quote escaping and id numbering.
- **Frontend.**
  - The catalogue filters of the root component, the products page and the admin page.
  - The input sanitisers, the log-level gate, the HTTP error messages, and the API URL builder.

The store is a set of tables (`Tables.Table`): a map from id to row, plus one fixed order in which `findAll` and the derived finders return rows (the database itself promises no order; see "## Left out"). `save` is an upsert.

- An id that is absent or unknown gets a fresh key. The caller supplies it as `newId`, which stands for the identity column.
- A row that breaks a column or entity constraint makes the call fail with `ConstraintViolation`.
- Every `Err` leaves the store as it was, as the transaction rolls back.
- A Category's product list is not stored. It is derived from the products whose relation points at it (`mappedBy`).
- Saving a category merges the entity's own product list into the row. Orphan removal then deletes every product of that row that the list does not hold.
- Saving a contact request stamps the update time only when a column changed: an unchanged entity is not dirty, so no UPDATE is issued. Both stamps are whatever the clock reads; nothing orders a stored row's update time after its creation time.

Some facilities outside the repository's own code are passed in as parameters:

- Java nulls are `Option`s.
- Clocks are parameters (`now`, `timestamp`).
- Unicode decomposition is `decompose`, and the mark class is `isMark`.
- `localeCompare` is any total preorder `le`.
- The `@Email` check is `isEmail`.
- The repository's category finder is `categoryMatches`.
- Number parsing is `toNumber`.
- The extra characters of a regex class are `allowed`.

Case mapping is ASCII. `compareToIgnoreCase` is defined concretely, and it is proved to be a total preorder.

Two cross-layer facts show up in the model:

- The backend DTO carries `categoryName`, while the frontend filters on `category`. As a result, products received from the API never match a selected category. This is stated in `AppView.ApiProductsMissEveryCategory`.
- The admin form sends `category` and `categoryEntity` but no `categoryId`, which `ProductDTO` requires.

## Model

| member | source | states |
|---|---|---|
| Entities.NewProductByNameFields | ab-backend/src/main/java/com/ab/model/Product.java:43-49 | The five-argument constructor sets title, casNumber, imageUrl, description and the legacy name. `getCategory()` then returns that name. Id, relation, slug and anchor stay null. |
| Entities.NewProductInCategoryFields | ab-backend/src/main/java/com/ab/model/Product.java:51-57 | The four-argument constructor links the category and caches its name, or null when there is no category. casNumber, imageUrl and description stay null. The cache agrees with the relation. |
| Entities.SetCategoryEntity | ab-backend/src/main/java/com/ab/model/Product.java:127-132 | Only the relation and the cached name can change. |
| Entities.SetCategoryEntitySyncs | ab-backend/src/main/java/com/ab/model/Product.java:127-131 | Linking a category copies its name into the cache, so the cache and the relation agree. |
| Entities.SetCategoryEntityNullKeepsName | ab-backend/src/main/java/com/ab/model/Product.java:127-132 | Unlinking clears the relation but keeps the old cached name, which `getCategory()` still returns. |
| Entities.GetCategoryCases | ab-backend/src/main/java/com/ab/model/Product.java:135-137 | `getCategory()` returns the cached name if present, else the relation's name. It is null exactly when both are missing. |
| Entities.SetCategory | ab-backend/src/main/java/com/ab/model/Product.java:139-141 | `setCategory(String)` changes the cached name and nothing else. |
| Entities.SetCategoryCanDiverge | ab-backend/src/main/java/com/ab/model/Product.java:139-141 | A concrete product whose relation says "Solvents" reports "Acids", so the cache and the relation disagree. |
| Entities.NewCategory | ab-backend/src/main/java/com/ab/model/Category.java:46-51 | The three-argument constructor copies name, slug and url, leaves the id null and starts with an empty product list. |
| Entities.BuildCategory | ab-backend/src/main/java/com/ab/model/Category.java:43-44 | The builder starts with an empty product list. |
| Entities.CategoryRowOkNonEmpty | ab-backend/src/main/java/com/ab/model/Category.java:28-38 | A storable category has non-empty name, slug and url. Name and slug are at most 100 characters. |
| Entities.BuildContactRequest | ab-backend/src/main/java/com/ab/service/ContactRequestService.java:36-41 | The builder copies name, email, phone and message. Every other field is null and `complete` is false. |
| Dtos.ProductDtoFreeFields | ab-backend/src/main/java/com/ab/dto/ProductDTO.java:21-47 | Validity depends only on title, casNumber, description and categoryId. Replacing id, imageUrl, slug, anchor, categoryName, createdBy and lastModifiedBy by any values keeps a valid DTO valid and an invalid one invalid. |
| Dtos.CategoryDtoFreeFields | ab-backend/src/main/java/com/ab/dto/CategoryDTO.java:21-34 | Validity depends only on name, slug and url: any id and any productIds give the same verdict. A name of three spaces is refused, although its length is legal. |
| Dtos.ContactRequestDtoFreeFields | ab-backend/src/main/java/com/ab/dto/ContactRequestDTO.java:21-36 | Validity never depends on the id. |
| BeanValidation.SizeCountsCodeUnits | ab-backend/src/main/java/com/ab/dto/CategoryDTO.java:24 | `@Size` counts UTF-16 code units, as `String.length()` does: one emoji already exceeds a maximum of 1 and meets a size of exactly 2. |
| BeanValidation.NotBlankIffVisibleChar | ab-backend/src/main/java/com/ab/dto/CategoryDTO.java:23 | `@NotBlank` holds iff the value is non-null and has a character above U+0020. |
| BeanValidation.NotBlankNonEmpty | ab-backend/src/main/java/com/ab/dto/CategoryDTO.java:23 | A non-blank value is non-empty. |
| ProductMapper.DtoOf | ab-backend/src/main/java/com/ab/mapper/ProductMapper.java:26-36 | Copies id and the six scalars verbatim. categoryId is the relation's id or null; categoryName is `getCategory()`. The audit fields are null. |
| ProductMapper.EntityOf | ab-backend/src/main/java/com/ab/mapper/ProductMapper.java:50-60 | Copies id, the six scalars and categoryName. It never builds a relation. |
| ProductMapper.ToDto | ab-backend/src/main/java/com/ab/mapper/ProductMapper.java:21-24 | `toDTO` returns null exactly for a null product. |
| ProductMapper.ToEntity | ab-backend/src/main/java/com/ab/mapper/ProductMapper.java:45-48 | `toEntity` returns null exactly for a null DTO. |
| ProductMapper.UpdateEntityFromDto | ab-backend/src/main/java/com/ab/mapper/ProductMapper.java:69-72 | The update never creates or drops an entity. |
| ProductMapper.RoundTrip | ab-backend/src/main/java/com/ab/mapper/ProductMapper.java:21-61 | DTO to entity to DTO keeps id, the six scalars and categoryName. categoryId, createdBy and lastModifiedBy come back null. |
| ProductMapper.DtoCategoryFields | ab-backend/src/main/java/com/ab/mapper/ProductMapper.java:34-35 | A DTO's categoryId is the relation's id, and null without a relation. Its name is the cached name, falling back to the relation's name. |
| ProductMapper.UpdateFrame | ab-backend/src/main/java/com/ab/mapper/ProductMapper.java:74-80 | The update overwrites the seven copied fields, even with null. It keeps the id and the relation. |
| ProductMapper.UpdateNullIsNoop | ab-backend/src/main/java/com/ab/mapper/ProductMapper.java:70-72 | A null DTO or a null entity leaves the entity unchanged. |
| ProductMapper.UpdateWithOwnDtoIsIdentity | ab-backend/src/main/java/com/ab/mapper/ProductMapper.java:69-81 | Updating a product from its own DTO changes nothing when its name is cached. |
| ProductMapper.ValidDtoGivesValidRow | ab-backend/src/main/java/com/ab/mapper/ProductMapper.java:50-58 | The entity built from a valid DTO meets the products table's column constraints iff imageUrl, slug, anchor and categoryName, which validation leaves unbounded, fit their default 255-character columns. Title, CAS number and description always fit. |
| CategoryMapper.DtoOf | ab-backend/src/main/java/com/ab/mapper/CategoryMapper.java:25-34 | Copies id, name, slug and url. productIds lists the products' ids in list order, or is null when the list is null. |
| CategoryMapper.EntityOf | ab-backend/src/main/java/com/ab/mapper/CategoryMapper.java:48-54 | Copies id, name, slug and url. It ignores productIds and starts with an empty list. |
| CategoryMapper.ToDto | ab-backend/src/main/java/com/ab/mapper/CategoryMapper.java:20-23 | `toDTO` returns null exactly for a null category. |
| CategoryMapper.ToEntity | ab-backend/src/main/java/com/ab/mapper/CategoryMapper.java:43-46 | `toEntity` returns null exactly for a null DTO. |
| CategoryMapper.UpdateEntityFromDto | ab-backend/src/main/java/com/ab/mapper/CategoryMapper.java:63-66 | The update never creates or drops an entity. |
| CategoryMapper.RoundTrip | ab-backend/src/main/java/com/ab/mapper/CategoryMapper.java:20-55 | DTO to entity to DTO keeps id, name, slug and url. productIds comes back empty. |
| CategoryMapper.UpdateFrame | ab-backend/src/main/java/com/ab/mapper/CategoryMapper.java:68-70 | The update overwrites name, slug and url, and keeps the id and the product list. |
| CategoryMapper.UpdateNullIsNoop | ab-backend/src/main/java/com/ab/mapper/CategoryMapper.java:64-66 | A null side leaves the entity unchanged. |
| CategoryMapper.ValidDtoGivesValidRow | ab-backend/src/main/java/com/ab/mapper/CategoryMapper.java:48-52 | The entity built from a valid DTO meets the categories table's column constraints. |
| Store.Live | ab-backend/src/main/java/com/ab/model/Product.java:31-38 | Reading a product changes only its relation. The relation keeps its id and shows the current name of the category it points at. |
| Store.AllProducts | ab-backend/src/main/java/com/ab/service/ProductService.java:51-53 | `findAll` yields one product per stored row, in table order. In a consistent store, every product has a title. |
| Store.ProductsOf | ab-backend/src/main/java/com/ab/model/Category.java:40-44 | A category's product list holds the stored products linked to it, and no others. |
| Store.Loaded | ab-backend/src/main/java/com/ab/model/Category.java:40-44 | A loaded category differs from its row only in its product list, which is `ProductsOf` its id. |
| Store.AllCategories | ab-backend/src/main/java/com/ab/service/CategoryService.java:37 | `findAll` yields one loaded category per stored row, in table order. |
| Store.SaveKey | ab-backend/src/main/java/com/ab/model/Product.java:10-12 | `save` updates the row of a known id and otherwise inserts under a fresh key. |
| Store.SaveProduct | ab-backend/src/main/java/com/ab/model/Product.java:10-38 | `save` succeeds iff the title is non-null, the description fits 2000 characters, the six text columns without a declared length (title, casNumber, imageUrl, slug, anchor, categoryName) fit the default 255, and the relation, if any, names a stored category. It writes exactly that row and keeps a consistent store. Other tables are unchanged. |
| Store.SaveCategory | ab-backend/src/main/java/com/ab/model/Category.java:24-44 | `save` succeeds iff name, slug and url are present, non-blank and within column length, and name and slug are unique among other categories. It writes exactly that category row. A product survives iff it is not orphaned: either it belongs to another category, or the saved entity's list holds its id. The products table is unchanged when nothing is orphaned, and always on an insert. |
| Store.SaveContact | ab-backend/src/main/java/com/ab/model/ContactRequest.java:26-65 | `save` succeeds iff the row meets the column and entity constraints. An insert stamps creation and update times. An update keeps the creation time. It sets the update time to `now` iff some other column changed, whatever the clock reads; otherwise the store is left exactly as it was. Only that row changes. |
| Store.PutCategoryUnique | ab-backend/src/main/java/com/ab/model/Category.java:28-34 | Writing a category whose name and slug are unique keeps every name and slug unique. |
| Store.PutCategoryOk | ab-backend/src/main/java/com/ab/model/Category.java:24-38 | Writing a storable, unique category keeps the categories table consistent. |
| Store.LinksSurviveGrowth | ab-backend/src/main/java/com/ab/model/Product.java:31-34 | Product links stay valid when categories are only added or rewritten. |
| Store.PutContactOk | ab-backend/src/main/java/com/ab/model/ContactRequest.java:26-61 | Writing a valid request with both timestamps set keeps the contact table consistent. |
| Store.DeleteProductRow | ab-backend/src/main/java/com/ab/service/ProductService.java:147 | `deleteById` removes exactly that product and keeps the store consistent. |
| Store.DeleteCategoryRow | ab-backend/src/main/java/com/ab/model/Category.java:40 | Deleting a category removes it and exactly the products linked to it. The remaining products are unchanged. |
| Store.DeleteContactRow | ab-backend/src/main/java/com/ab/service/ContactRequestService.java:122 | `deleteById` removes exactly that request. |
| ProductService.Select | ab-backend/src/main/java/com/ab/service/ProductService.java:45-53 | A non-blank query selects exactly the title/CAS matches. Otherwise a category other than "All Products" (in any case) selects exactly that category's products. Otherwise every product is selected. The selection is an order-preserving subsequence of the table's fixed order, which the model gives every finder. |
| ProductService.SortedDtos | ab-backend/src/main/java/com/ab/service/ProductService.java:57-67 | The name sort yields a permutation of the selection's DTOs, ordered by `compareToIgnoreCase` on title. |
| ProductService.GetAllProducts | ab-backend/src/main/java/com/ab/service/ProductService.java:40-68 | Listing returns one DTO per selected product. Without the name sort (in any case) the selection order is kept. With it, the result is a title-sorted permutation. |
| ProductService.GetProductById | ab-backend/src/main/java/com/ab/service/ProductService.java:77-88 | Lookup succeeds iff the id is stored and returns that product's DTO. Otherwise it fails with NotFound and the id in the message. |
| ProductService.CreateProduct | ab-backend/src/main/java/com/ab/service/ProductService.java:97-105 | Creation succeeds iff the title is non-null and every value fits its column: 2000 characters for the description, 255 for the other text columns. A valid DTO is stored iff its imageUrl, slug, anchor and categoryName fit 255 characters. The saved row is the DTO's entity with no category link. Other tables are unchanged. |
| ProductService.UpdateProduct | ab-backend/src/main/java/com/ab/service/ProductService.java:116-130 | An absent id gives NotFound. Otherwise the update succeeds iff the title is non-null and every value fits its column (2000 for the description, 255 for the other text columns). The seven scalars are overwritten, and the id, the category link and the table order are kept. No other row or table changes. |
| ProductService.DeleteProduct | ab-backend/src/main/java/com/ab/service/ProductService.java:139-149 | An absent id gives NotFound. A present id removes exactly that product. |
| ProductService.SearchProducts | ab-backend/src/main/java/com/ab/service/ProductService.java:157-167 | Search returns the DTOs of exactly the title/CAS matches. No blank check and no category filter apply. |
| ProductService.QueryIgnoresCategory | ab-backend/src/main/java/com/ab/service/ProductService.java:45-47 | With a non-blank query, the category argument and the category finder have no effect. |
| ProductService.SortOnlyReorders | ab-backend/src/main/java/com/ab/service/ProductService.java:57-62 | Sorting by name returns the same multiset of DTOs as not sorting. |
| ProductService.SearchAgreesWithListing | ab-backend/src/main/java/com/ab/service/ProductService.java:45-67 | For a non-blank query, search equals the unsorted listing, whatever the category. |
| ProductService.ContainsEmpty | ab-backend/src/main/java/com/ab/repository/ProductRepository.java:13 | Every string contains the empty string, ignoring case. |
| ProductService.EmptySearchListsAll | ab-backend/src/main/java/com/ab/service/ProductService.java:157-167 | Searching for "" returns every product, in table order. |
| ProductService.ValidDtoCanOverflowColumn | ab-backend/src/main/java/com/ab/model/Product.java:20 | A DTO for tin ("Tin", "7440-31-5", category id 1) with a 256-character imageUrl passes validation, and creation is refused with a constraint violation. |
| ProductService.CreateThenGet | ab-backend/src/main/java/com/ab/service/ProductService.java:97-105 | After a successful create, a lookup of the new id returns the created DTO. |
| ProductService.UpdateThenGet | ab-backend/src/main/java/com/ab/service/ProductService.java:116-130 | After an update, a lookup returns the updated DTO. It keeps the old categoryId and carries the DTO's title and casNumber. |
| ProductService.DeleteThenGet | ab-backend/src/main/java/com/ab/service/ProductService.java:139-149 | After a delete, both a lookup and a second delete of that id give NotFound. |
| CategoryService.ProductIdsOfCategory | ab-backend/src/main/java/com/ab/mapper/CategoryMapper.java:30-33 | A category DTO's productIds are exactly the ids of the stored products linked to it. |
| CategoryService.GetAllCategories | ab-backend/src/main/java/com/ab/service/CategoryService.java:34-43 | Returns one DTO per stored category, in table order. Each carries the row's id, name, slug and url, and exactly the ids of its products. |
| CategoryService.GetCategoryById | ab-backend/src/main/java/com/ab/service/CategoryService.java:52-63 | Succeeds iff the id is stored and returns that category's DTO. Otherwise it fails with NotFound. |
| CategoryService.GetCategoryBySlug | ab-backend/src/main/java/com/ab/service/CategoryService.java:133-144 | Succeeds iff some stored category has exactly that slug, and returns that category's DTO. Otherwise it fails with NotFound naming the slug. |
| CategoryService.NoSlugMeansNotFound | ab-backend/src/main/java/com/ab/service/CategoryService.java:136-140 | An empty slug search means no stored category has that slug. |
| CategoryService.FoundSlugIsStored | ab-backend/src/main/java/com/ab/service/CategoryService.java:136 | Every category the slug search finds is a stored row with that slug. |
| CategoryService.CreateCategory | ab-backend/src/main/java/com/ab/service/CategoryService.java:72-80 | A valid DTO whose name and slug are new is always stored. Creation fails iff the row breaks a constraint. The result is the DTO with its id and an empty product list. A DTO carrying a stored category's id overwrites that row, and exactly that category's products are deleted. Otherwise the products table is unchanged. Contacts are never touched. |
| CategoryService.UpdateCategory | ab-backend/src/main/java/com/ab/service/CategoryService.java:91-105 | An absent id gives NotFound. Otherwise only name, slug and url change, subject to the constraints. The id and the product links are kept, and no product is deleted. |
| CategoryService.LoadedOrphansNothing | ab-backend/src/main/java/com/ab/service/CategoryService.java:94-101 | The list that `findById` loads holds every product of the category, so saving the loaded entity orphans none of them. |
| CategoryService.DeleteCategory | ab-backend/src/main/java/com/ab/service/CategoryService.java:114-124 | An absent id gives NotFound. A present id removes the category and cascades to exactly its products. |
| CategoryService.BySlugAgreesWithById | ab-backend/src/main/java/com/ab/service/CategoryService.java:133-144 | Lookup by a stored slug equals lookup by that category's id. |
| CategoryService.UpdateLeavesLegacyNames | ab-backend/src/main/java/com/ab/service/CategoryService.java:100-101 | Renaming a category leaves each linked product's cached name as it was, while its relation shows the new name. |
| CategoryService.DeleteThenGet | ab-backend/src/main/java/com/ab/service/CategoryService.java:114-124 | After a delete, lookup gives NotFound and no remaining product points at the category. |
| ContactService.CreateContactRequest | ab-backend/src/main/java/com/ab/service/ContactRequestService.java:33-47 | Creation succeeds iff the copied fields meet the entity constraints. A valid DTO with a short enough email always succeeds. The new request copies name, email, phone and message and is not complete. It is stamped with `now` and appended under a fresh id. |
| ContactService.GetContactRequestById | ab-backend/src/main/java/com/ab/service/ContactRequestService.java:56-64 | Succeeds iff the id is stored and returns that row. Otherwise it fails with NotFound. |
| ContactService.GetAllContactRequests | ab-backend/src/main/java/com/ab/service/ContactRequestService.java:71-76 | Returns every stored request once, in table order. |
| ContactService.UpdateContactRequest | ab-backend/src/main/java/com/ab/service/ContactRequestService.java:87-105 | An absent id gives NotFound. Otherwise exactly name, email, phone and message are replaced. id, countryCode, mobileNumber, productId, complete and createdAt are kept. The update time becomes `now`, at any clock reading, iff one of the four values differs from the stored one. A request that repeats all four leaves the store unchanged. |
| ContactService.DeleteContactRequest | ab-backend/src/main/java/com/ab/service/ContactRequestService.java:114-124 | An absent id gives NotFound. A present id removes exactly that request. |
| ContactService.PutKeepsNoneComplete | ab-backend/src/main/java/com/ab/model/ContactRequest.java:55-57 | Writing an incomplete request keeps the property "no request is complete". Create, update and delete therefore never set `complete`. |
| ContactService.UpdateKeepsCreationTime | ab-backend/src/main/java/com/ab/model/ContactRequest.java:59-65 | An update keeps the creation time (`updatable = false`). Its update time is `now`, unless the whole row is the stored one. A lookup returns the updated row. A stored row stamped in order stays in order when the clock has not gone back behind its creation. |
| ContactService.BackwardClockInvertsStamps | ab-backend/src/main/java/com/ab/model/ContactRequest.java:59-65 | A changing update at a clock reading before the creation time leaves the update time before the creation time: nothing in the entity orders the two stamps. |
| ContactService.RepeatedUpdateChangesNothing | ab-backend/src/main/java/com/ab/service/ContactRequestService.java:96-101 | Sending the same update again, at any clock reading, leaves the store as the first update left it and returns the same request. |
| SlugGenerator.Generate | ab-backend/src/main/java/com/ab/util/SlugGenerator.java:22-47 | Null or blank input gives "". Otherwise the slug has only `a-z0-9-`, no leading, trailing or doubled hyphen. It keeps the letters and digits of the lower-cased, trimmed, accent-stripped input, in order. |
| SlugGenerator.SqueezeIsReplaceRuns | ab-backend/src/main/java/com/ab/util/SlugGenerator.java:35-41 | The one-pass run squeezer equals `replaceAll` of a maximal run with one replacement character. |
| SlugGenerator.SqueezeTwice | ab-backend/src/main/java/com/ab/util/SlugGenerator.java:35-41 | Two successive run replacements into `-` equal one replacement of the union class. |
| SlugGenerator.StripTrailingSqueeze | ab-backend/src/main/java/com/ab/util/SlugGenerator.java:44 | Dropping a trailing hyphen after squeezing gives the one-pass reference. |
| SlugGenerator.StripBothSqueeze | ab-backend/src/main/java/com/ab/util/SlugGenerator.java:44 | Dropping the leading and trailing hyphens after squeezing gives the reference. |
| SlugGenerator.PipelineIsReference | ab-backend/src/main/java/com/ab/util/SlugGenerator.java:35-44 | The five regex passes equal the one-pass reference slug. |
| SlugGenerator.ReferenceShape | ab-backend/src/main/java/com/ab/util/SlugGenerator.java:14 | The reference uses only `a-z0-9-`, never ends in a hyphen, and follows each hyphen with a letter or digit. Without a prefix it starts with a letter or digit. |
| SlugGenerator.ReferenceLetters | ab-backend/src/main/java/com/ab/util/SlugGenerator.java:35-38 | Deleting hyphens from the reference gives the input's `a-z0-9` characters in order. |
| SlugGenerator.ReferenceFixesSlug | ab-backend/src/main/java/com/ab/util/SlugGenerator.java:35-44 | A well-formed slug is its own reference. |
| Text.TrimKeepsKeptEnds | ab-backend/src/main/java/com/ab/util/SlugGenerator.java:28 | Trimming leaves a string whose ends are kept characters unchanged. |
| SlugGenerator.DecomposeKeepsSlug | ab-backend/src/main/java/com/ab/util/SlugGenerator.java:31 | Decomposition leaves a string of self-decomposing characters unchanged. |
| SlugGenerator.NormalizeKeepsSlug | ab-backend/src/main/java/com/ab/util/SlugGenerator.java:28-32 | Lower-casing, trimming and accent stripping leave a well-formed slug unchanged. |
| SlugGenerator.GenerateIdempotent | ab-backend/src/main/java/com/ab/util/SlugGenerator.java:22-47 | Generating a slug from a slug returns it unchanged. |
| SeedSql.Escape | ab-backend/src/main/resources/script/generate_sql.py:21-23 | Escaping never shortens a string. |
| SeedSql.EscapeRoundTrip | ab-backend/src/main/resources/script/generate_sql.py:21-23 | Un-doubling quotes recovers the original string from its escaped form. |
| SeedSql.IdMap | ab-backend/src/main/resources/script/generate_sql.py:17-28 | Every category name gets an id. |
| SeedSql.IdMapSound | ab-backend/src/main/resources/script/generate_sql.py:25 | A name's id is between 1 and n and numbers a category with that name. |
| SeedSql.IdMapLastWins | ab-backend/src/main/resources/script/generate_sql.py:25 | With duplicate names, the id recorded is that of the last occurrence. |
| SeedSql.CategoryRows | ab-backend/src/main/resources/script/generate_sql.py:20-28 | Exactly one category INSERT per input category. |
| SeedSql.CategoryRowsIndex | ab-backend/src/main/resources/script/generate_sql.py:27-28 | The i-th category INSERT has id i+1 and that category's fields. |
| SeedSql.BlockRows | ab-backend/src/main/resources/script/generate_sql.py:39-45 | One product INSERT per product of the category. |
| SeedSql.ProductRows | ab-backend/src/main/resources/script/generate_sql.py:34-45 | Exactly one product INSERT per product, across all categories. |
| SeedSql.BlockRowsIndex | ab-backend/src/main/resources/script/generate_sql.py:44-45 | Within a block, ids continue the running counter. |
| SeedSql.ProductRowsIndex | ab-backend/src/main/resources/script/generate_sql.py:34-45 | The k-th product INSERT has id k+1, the k-th product, and the id and name of its enclosing category. |
| SeedSql.ProductRowsReferenceCategories | ab-backend/src/main/resources/script/generate_sql.py:37 | Every product row's category id is the id of a category INSERT with that name. |
| SeedSql.InsertCategories | ab-backend/src/main/resources/script/generate_sql.py:17-28 | The category loop produces exactly the category rows and the name-to-id map. |
| SeedSql.InsertProducts | ab-backend/src/main/resources/script/generate_sql.py:34-45 | The product loop produces exactly the product rows. |
| SeedSql.GenerateSql | ab-backend/src/main/resources/script/generate_sql.py:10-45 | The script is: header lines, category INSERTs, separator, product INSERTs. It has as many lines as that layout needs. This is the script as line 44 evidently intends it. |
| SeedSql.GenerateSqlAsWritten | ab-backend/src/main/resources/script/generate_sql.py:44 | The script as written produces output iff line 44's last replacement field compiles under the chosen Python grammar. |
| SeedSql.Line44NeverCompiles | ab-backend/src/main/resources/script/generate_sql.py:44 | Under both grammars the field is rejected. Before PEP 701 any backslash is rejected. From PEP 701 on, the first backslash stands in code and is followed by a quote. So the script as written never produces SQL. |
| Sorting.SortBy | ab-backend/src/main/java/com/ab/service/ProductService.java:59-61 | Sorting returns a permutation ordered by the comparator, given a total preorder. |
| Sorting.CompareIgnoreCaseAntisymmetric | ab-backend/src/main/java/com/ab/service/ProductService.java:60 | `compareToIgnoreCase` is antisymmetric. |
| Sorting.CompareIgnoreCaseZero | ab-backend/src/main/java/com/ab/service/ProductService.java:60 | `compareToIgnoreCase` is 0 iff `equalsIgnoreCase`. |
| Sorting.CompareIgnoreCaseTransitive | ab-backend/src/main/java/com/ab/service/ProductService.java:60 | `compareToIgnoreCase` is transitive. |
| Sorting.LeIgnoreCaseIsTotalPreorder | ab-backend/src/main/java/com/ab/service/ProductService.java:60 | The title comparator is a total preorder, so the listing sort is well defined. |
| Text.NatToStringInjective | ab-backend/src/main/java/com/ab/service/ProductService.java:83 | Distinct ids give distinct not-found messages. |
| UiCatalog.SortByTitle | ab-frontend/src/app/app.ts:139-141 | Sorting by title with `localeCompare` gives a sorted permutation. |
| UiCatalog.EmptyTermMatchesAll | ab-frontend/src/app/app.ts:131 | The empty term matches every product. |
| AppView.MatchesAsWritten | ab-frontend/src/app/app.ts:133-135 | The unguarded test throws exactly when the title misses and casNumber is null. Otherwise it agrees with the null-safe test. |
| AppView.FilterAsWritten | ab-frontend/src/app/app.ts:132-136 | The unguarded filter throws iff some product throws. Otherwise it equals the null-safe filter. |
| AppView.SelectionIsOneFilter | ab-frontend/src/app/app.ts:127-137 | The category filter followed by the query filter is one filter on both tests. |
| AppView.FilteredProducts | ab-frontend/src/app/app.ts:122-144 | Without the name sort, the order-preserving subsequence passing the category and trimmed lower-case query tests. With it, a `localeCompare`-sorted permutation of that subsequence. |
| AppView.FilteredProductsShowExactly | ab-frontend/src/app/app.ts:122-137 | A product is listed iff it is in the catalogue and passes both tests. |
| AppView.FilteredProductsAsWritten | ab-frontend/src/app/app.ts:122-144 | The unguarded list throws iff the query is non-empty and some product of the selected category throws. Otherwise it equals the null-safe list. |
| AppView.ThrowsIffCategoryThrows | ab-frontend/src/app/app.ts:127-137 | The list throws iff a product surviving the category filter throws. |
| AppView.SortOnlyReorders | ab-frontend/src/app/app.ts:139-141 | The name sort returns the same multiset as relevance order. |
| AppView.ApiProductsMissEveryCategory | ab-frontend/src/app/app.ts:127-129 | Products without a `category` field match no real category, whatever the search or sort. |
| AppView.FeaturedProducts | ab-frontend/src/app/app.ts:146-160 | At most eight products. With a blank query they are the first eight. Otherwise every one is a catalogue match of the query. |
| AppView.FeaturedProductsAsWritten | ab-frontend/src/app/app.ts:146-160 | The unguarded featured list throws iff the query is non-empty and some product throws. Otherwise it equals the null-safe list. |
| AppView.FeaturedIsHeadOfCatalog | ab-frontend/src/app/app.ts:146-160 | The featured list is the first eight of the unsorted "All Products" listing. |
| AppView.NullCasNumberBreaksSearch | ab-frontend/src/app/app.ts:131-137 | A product with a null casNumber whose title misses a non-empty query makes both lists throw. The null-safe list leaves it out. |
| AppView.TinBreaksIodineSearch | ab-frontend/src/app/app.ts:131-137 | Product "Tin" with a null casNumber makes both lists throw on search "iodine". The null-safe list is empty. |
| AppView.LoadedProducts | ab-frontend/src/app/app.ts:264-274 | The shown catalogue is never empty. A non-empty API answer is used as is; anything else gives the sample catalogue. |
| AppView.FeaturedNeverEmptyWithoutQuery | ab-frontend/src/app/app.ts:149-150 | With a blank query, the featured list is never empty. |
| AppView.CategoryBar | ab-frontend/src/app/app.ts:167-185 | A delivered list gives "All Products" followed by the API's names in order. A failure gives the fixed default list. |
| AppView.CategoryBarKeepsAllProductsFirst | ab-frontend/src/app/app.ts:170-176 | The bar always starts with "All Products". |
| Sanitization.Substring0 | ab-frontend/src/app/core/services/sanitization.service.ts:79 | `substring(0, n)` is the prefix of length n, clamped to 0 and to the length. |
| Sanitization.SanitizeInput | ab-frontend/src/app/core/services/sanitization.service.ts:78-80 | The result is a prefix of the trimmed input of length at most maxLength. It is the whole trimmed input when that fits. |
| Sanitization.SanitizeShortInputIdempotent | ab-frontend/src/app/core/services/sanitization.service.ts:78-80 | Sanitising twice equals once when the trimmed input fits. |
| Sanitization.SanitizeNotIdempotent | ab-frontend/src/app/core/services/sanitization.service.ts:78-80 | Truncation can expose trailing space: "a b" with bound 2 gives "a " and then "a". |
| Sanitization.IsValidPhoneNumber | ab-frontend/src/app/core/services/sanitization.service.ts:50-53 | Accepted iff at least seven characters, each a digit, `+`, `-`, JavaScript whitespace, `(` or `)`. |
| Sanitization.IsValidEmail | ab-frontend/src/app/core/services/sanitization.service.ts:42-45 | Accepted iff one `@` with text before it, then a `.` with text on both sides after it, and no other `@` or whitespace anywhere. |
| Sanitization.AcceptedEmailHasOneAt | ab-frontend/src/app/core/services/sanitization.service.ts:43 | An accepted e-mail has exactly one `@`. |
| Sanitization.RemoveSpecialCharacters | ab-frontend/src/app/core/services/sanitization.service.ts:70-73 | Keeps only ASCII letters, digits and allowed characters. Each kept character occurs exactly as often as in the input, and the result is a subsequence of it, which fixes the result. |
| Sanitization.DefaultKeepsAlnum | ab-frontend/src/app/core/services/sanitization.service.ts:70-73 | With no extra characters, the result is the ASCII letters and digits in order. |
| Sanitization.RemoveSpecialCharactersIdempotent | ab-frontend/src/app/core/services/sanitization.service.ts:70-73 | Removing special characters twice equals once. |
| ProductsPage.SelectionIsOneFilter | ab-frontend/src/app/products/products.component.ts:49-64 | The category then search filters are one filter on both tests. |
| ProductsPage.FilteredProducts | ab-frontend/src/app/products/products.component.ts:49-71 | Without the name sort, the order-preserving subsequence passing both tests. With it, a sorted permutation of it. |
| ProductsPage.SuggestedProducts | ab-frontend/src/app/products/products.component.ts:73-81 | Empty for an empty search. Otherwise exactly the title/CAS matches in catalogue order, ignoring the category. |
| ProductsPage.UpdateSearch | ab-frontend/src/app/products/products.component.ts:164-167 | Stores the sanitised input and changes nothing else. |
| ProductsPage.ClearSearch | ab-frontend/src/app/products/products.component.ts:172-174 | After clearing, no product is suggested, whatever the catalogue. Sort, category and focus are kept. |
| ProductsPage.ClearSearchListsWholeCategory | ab-frontend/src/app/products/products.component.ts:49-71 | After clearing, the page lists the whole selected category. That is in catalogue order, or as a title-sorted permutation of it under "name". |
| ProductsPage.OnSearchBarFocus | ab-frontend/src/app/products/products.component.ts:179-182 | Resets the category to "All Products" and marks the bar focused. The search and sort are kept. |
| ProductsPage.SelectCategory | ab-frontend/src/app/products/products.component.ts:194-197 | Sets the category and clears the search. |
| ProductsPage.UpdateSort | ab-frontend/src/app/products/products.component.ts:187-189 | The suggestions do not depend on the sort: they are the same before and after, for every catalogue. Search, category and focus are kept. |
| ProductsPage.UpdateSortReorders | ab-frontend/src/app/products/products.component.ts:66-68 | Choosing "name" shows a title-sorted permutation of the unsorted listing. Any other choice shows the unsorted listing itself. |
| ProductsPage.SelectCategoryListsWholeCategory | ab-frontend/src/app/products/products.component.ts:194-197 | After choosing a category, the unsorted list is that whole category and there are no suggestions. |
| ProductsPage.FocusedListEqualsSuggestions | ab-frontend/src/app/products/products.component.ts:179-182 | After focusing the bar with a search typed, the unsorted list equals the suggestions. |
| ProductsPage.SuggestionsIgnoreCategory | ab-frontend/src/app/products/products.component.ts:73-81 | The suggestions do not depend on the selected category. |
| ProductsPage.TypedSearchIsTrimmed | ab-frontend/src/app/products/products.component.ts:164-167 | A typed search that fits is stored trimmed, so the page's untrimmed term is trimmed too. |
| AdminPage.FilteredCategories | ab-frontend/src/app/admin/admin.component.ts:27-34 | An empty term returns all categories. Otherwise exactly those whose lower-case name or slug contains the term, in order. |
| AdminPage.FilteredProducts | ab-frontend/src/app/admin/admin.component.ts:36-44 | An empty term returns all products. Otherwise exactly those whose title, casNumber or category contains the term, in order. |
| AdminPage.SearchesIgnoreTermCase | ab-frontend/src/app/admin/admin.component.ts:28-37 | Upper-casing the search term does not change either admin list. |
| AdminPage.AdminSearchCoversCatalogSearch | ab-frontend/src/app/admin/admin.component.ts:39-43 | Every catalogue match of the term is in the admin product list. |
| AdminPage.FindCategory | ab-frontend/src/app/admin/admin.component.ts:90 | `find` returns the first category with the parsed id, or nothing when none has it. |
| AdminPage.OnSubmitProduct | ab-frontend/src/app/admin/admin.component.ts:87-101 | An invalid form builds nothing. A valid form copies the four text fields, empties slug and anchor, and links the found category, whose name (or "") becomes the product's category. |
| AdminPage.SubmitNamesChosenCategory | ab-frontend/src/app/admin/admin.component.ts:90-97 | With distinct ids, the product names the category the form chose. |
| Logger.ParseLogLevel | ab-frontend/src/app/core/services/logger.service.ts:97-100 | The level whose name is the upper-cased input, or INFO when no level has that name. |
| Logger.ParseName | ab-frontend/src/app/core/services/logger.service.ts:97-100 | Each level's name parses back to the level, also when written in lower case. |
| Logger.ErrorAlwaysLogs | ab-frontend/src/app/core/services/logger.service.ts:83-92 | ERROR passes the gate at every configured level. |
| Logger.ShouldLogMonotone | ab-frontend/src/app/core/services/logger.service.ts:91 | If a level passes the gate, every higher level passes. |
| Logger.GateIsThreshold | ab-frontend/src/app/core/services/logger.service.ts:83-92 | A level passes iff it is the configured level or ranks above it. The ranks are distinct. |
| Logger.DevelopmentLogsEverything | ab-frontend/src/app/core/services/logger.service.ts:21-23 | The development setting "debug" parses to DEBUG, at which every level passes. |
| Logger.Format | ab-frontend/src/app/core/services/logger.service.ts:62 | The line is "[ts] [LEVEL] " followed by the message. |
| Logger.Log | ab-frontend/src/app/core/services/logger.service.ts:56-78 | A line is emitted iff the level passes the gate, and it is the formatted line. |
| HttpErrors.GetErrorMessage | ab-frontend/src/app/core/interceptors/error.interceptor.ts:49-76 | A client event gives its own message. 400 gives the server message if non-empty, else the bad-request text. 0, 401, 403, 404, 408, 500 and 503 give their fixed texts. Anything else gives "An error occurred: " and the status text, or 'Unknown error'. |
| HttpErrors.ServerErrorsHaveMessage | ab-frontend/src/app/core/interceptors/error.interceptor.ts:55-75 | A server-side error never yields an empty message. |
| HttpErrors.KnownStatusDecides | ab-frontend/src/app/core/interceptors/error.interceptor.ts:56-72 | For a listed status other than 400, the message depends only on the status. |
| HttpErrors.FixedTextsDistinct | ab-frontend/src/app/core/interceptors/error.interceptor.ts:57-72 | Different listed statuses give different fixed texts. |
| HttpErrors.FormatError | ab-frontend/src/app/core/interceptors/error.interceptor.ts:81-89 | Copies status, statusText and url, and the message is `getErrorMessage`. |
| BaseApi.GetFullUrl | ab-frontend/src/app/core/services/base-api.service.ts:76-78 | An endpoint starting with "http" is returned as is. Otherwise the result is apiUrl followed by the endpoint. It always ends with the endpoint. |
| BaseApi.GetFullUrlIdempotent | ab-frontend/src/app/core/services/base-api.service.ts:77 | With an absolute apiUrl, building a URL twice equals once. |
| BaseApi.ConfiguredUrlIsAbsolute | ab-frontend/src/environments/environment.ts:8 | The development apiUrl starts with "http". |

## Left out

**Persistence and runtime machinery**
- JPA machinery is not modelled:
  - transactions, beyond "an error changes nothing";
  - lazy loading;
  - the persistence context;
  - concurrent writers;
  - the cascade of `save` to the products in a merged category's list. No service puts a product into a list that the products table does not already link.
- Identity generation and clocks are parameters: `newId`, `now` and `timestamp`. No order between clock readings is assumed, so a contact request's update time can precede its creation time (`ContactService.BackwardClockInvertsStamps`).
- The controllers, `CorsConfig`, `OpenAPIConfig`, `AbBackendApplication`, `ErrorResponse` and `DataLoader` are not modelled. They are routing, configuration or commented-out code.
- `ResourceNotFoundException` is the `NotFound` error.
- ProductService.Select: `findAll` and the two derived finders are modelled as order-preserving filters of one fixed table order. Without ORDER BY the database promises no order, not even the same order on two calls. The order statements of `ProductService.Select`, `ProductService.GetAllProducts` without the name sort, `ProductService.SearchProducts`, `ProductService.SearchAgreesWithListing`, `ProductService.EmptySearchListsAll`, `ProductService.QueryIgnoresCategory` and the category and contact listings hold for that assumed order only. Membership and multiplicity do not depend on it.
- ProductService.Select: `findByCategoryIgnoreCase(String)` derives its query from `Product.category`, which is the `@ManyToOne Category` relation, not a String. Spring Data's `IgnoreCase` wants a String property, so the repository plausibly fails when it is created and the backend does not start. The model takes the finder as the parameter `categoryMatches`, and "that category's products" holds only under the meaning given to it.
- Store.SaveKey: an unknown generated id inserts under a fresh key, as Hibernate merges before 6.6. From 6.6 on, such a merge throws. No build file fixes the version, so the older behaviour is assumed.
- The category and contact-request repositories are not part of this model. Their `findBySlug`, `findById` and `findAll` are taken with their Spring Data meaning.
- The log calls in the Java services are not modelled. They have no effect on results.

**Strings**
- `@Size` counts UTF-16 code units (`Text.Utf16Length`), as `String.length()` does. Column lengths (`FitsColumn`) count characters, which is how SQL databases count a `VARCHAR` length. A String column whose `@Column` declares no length holds JPA's default of 255 (`BeanValidation.DefaultColumnLength`). A Dafny `string` is a sequence of Unicode scalar values, so every other length in the model counts characters.
- BeanValidation.Size: Java strings holding unpaired surrogates are not modelled, because a Dafny `string` cannot hold them.
- Sanitization.Substring0: it counts characters where JavaScript's `substring` counts UTF-16 code units. For text outside the Basic Multilingual Plane, the source can cut a surrogate pair in half, and the model cannot.
- Sanitization.SanitizeInput: its length bound counts characters, not UTF-16 code units. So for text with supplementary characters, the source keeps fewer characters than the model does.
- Unicode case mapping is ASCII only, in `Text.Lower` and `Text.Upper`. This affects `toLowerCase`, `toUpperCase`, `equalsIgnoreCase`, `compareToIgnoreCase` and `SlugGenerator.Generate`'s lower-casing. In `SlugGenerator.Generate` lower-casing comes before decomposition, so an accented capital keeps its case, decomposes to a capital and a mark, and is then deleted as outside `a-z0-9`: the model gives "cido" for "Ácido" where Java gives "acido". The slug statements are exact for input whose capitals are ASCII.
- Canonical decomposition and the mark class are parameters.
- `Logger.ParseLogLevel`: upper-casing is ASCII, so a non-ASCII spelling of a level name is not modelled.
- `@Email`, `localeCompare`, `Number`/`+` parsing and the `allowedChars` regex fragment are parameters. `allowedChars` is taken as a character class, not as arbitrary regex text.

**Frontend**
- The DOM-based helpers `sanitizeHtml`, `sanitizeResourceUrl`, `sanitizeText` and `isValidUrl` are left out. So are console output, signals and effects, modals and SweetAlert, the HTTP services, the Observable wiring of the interceptors, the timeout interceptor, the admin guard, routes, `app.config`, and `home.component`.
- `AppView.CategoryBar`: a delivered null list keeps the current bar. In the application the `map` throws inside the subscriber, and the bar is not set either.
- `HttpErrors.FormatError`: the timestamp field is left out, because it reads the clock.
- `HttpErrors.GetErrorMessage`: app.config.ts:21 provides the HTTP client without `withInterceptorsFromDi()`, so the class-based interceptors registered on lines 24-25 are plausibly never applied. The model states the interceptor's messages as if it ran.
- `AdminPage.OnSubmitProduct`: admin.component.ts:103 and :149 call `createProduct` and `deleteProduct`, which services/product.service.ts does not declare, so the admin page plausibly does not compile. The model states what the page builds before that call.

**Seed script and other scripts**
- `download_images.py` is left out, because it does network and file I/O.
- The seed script's JSON reading, file writing and printing are left out.
- The seed script's line 44 puts backslash-escaped quotes into an f-string replacement field, and no Python version compiles that (see Findings). `SeedSql.GenerateSql` builds the row the line evidently intends. `SeedSql.GenerateSqlAsWritten` models the failure. Its tokeniser knows only code, string literals, escapes and line continuations; it does not model prefixes or triple quotes.

**Weaker contracts**
- ProductService.CreateProduct: a valid DTO is promised to be stored only when imageUrl, slug, anchor and categoryName fit 255 characters. ProductDTO declares no `@Size` on those fields, while their Product columns have JPA's default length of 255.
- Sorting.SortBy: it states a sorted permutation, not stability. `Stream.sorted` and `Array.prototype.sort` are both stable, so equal titles keep their selection order. That is not proved.
- ProductService.SearchProducts: its own contract states membership and a length bound. Its order is pinned down only through `ProductService.SearchAgreesWithListing` (non-blank query) and `ProductService.EmptySearchListsAll` (empty query). A whitespace-only query keeps only the membership statement.
- ProductMapper.ToDto / ProductMapper.ToEntity / CategoryMapper.ToDto / CategoryMapper.ToEntity: they state only the null cases. The non-null content is stated by `DtoOf`, `EntityOf` and the `RoundTrip` lemmas.

## Findings

| source | as written | input that shows it | evidently intended | confidence | as-written member | corrected member |
|---|---|---|---|---|---|---|
| ab-frontend/src/app/app.ts:131-137 | The query filter calls `p.casNumber.toLowerCase()` without a null guard whenever the title does not contain the query. A product with a null CAS number then raises a TypeError, and the whole list fails. | One product, title "Tin", casNumber null (as the seed script intends for every product); search "iodine" | A null CAS number does not match, as in products.component.ts:62 with `?.`; the list is then empty | not executed | AppView.FilteredProductsAsWritten, AppView.TinBreaksIodineSearch | AppView.FilteredProducts |
| ab-frontend/src/app/app.ts:151-157 | The featured list uses the same unguarded test, so the same product and search make it throw. | One product, title "Tin", casNumber null; search "iodine" | The null-safe test, giving an empty featured list | not executed | AppView.FeaturedProductsAsWritten, AppView.TinBreaksIodineSearch | AppView.FeaturedProducts |
| ab-backend/src/main/resources/script/generate_sql.py:44 | The last replacement field of the product INSERT writes its quotes as `\"'\"` inside the expression. Before Python 3.12 an f-string expression may not contain a backslash. From 3.12 on, a backslash in the expression outside a string literal is a line continuation, and here a quote follows it. Either way the module is a SyntaxError, so the script writes no SQL at all. | Any input file: the error is raised while compiling, before the JSON is read | Each product row names its category by its name with every quote doubled, as the other columns are escaped on lines 40-42 | not executed | SeedSql.GenerateSqlAsWritten, SeedSql.Line44NeverCompiles | SeedSql.GenerateSql |
