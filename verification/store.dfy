/** The relational store behind the three repositories: one table per
    entity, the constraints the schema and the entity annotations impose on
    every row, and `save`, which the persistence layer turns into an insert
    or an update.

    Identity columns are modelled by a `newId` key supplied by the caller
    (never a key in use). A Category's product list is not stored: it is the
    set of products whose relation points at the Category (`mappedBy`), in
    table order. A Product's relation is stored as the Category's id; the
    name it exposes is read from the categories table. */
module Store {
  import opened Wrappers
  import opened Entities
  import Tables
  import Seqs

  datatype Db = Db(
    categories: Tables.Table<Category>,
    products: Tables.Table<Product>,
    contacts: Tables.Table<ContactRequest>)

  // ------------------------------------------------------------ constraints

  /** No other row of `t` than row `k` has the name or the slug of `c`
      (the two UNIQUE columns of `categories`). */
  predicate Unique(t: Tables.Table<Category>, k: int, c: Category) {
    forall j | j in t.rows && j != k :: t.rows[j].name != c.name && t.rows[j].slug != c.slug
  }

  /** The foreign key `category_id`: a product either has no category or
      points at a stored one. */
  predicate LinkOk(p: Product, cats: Tables.Table<Category>) {
    p.category.None? || (p.category.value.id.Some? && p.category.value.id.value in cats.rows)
  }

  /** No two rows share a name or a slug. */
  ghost predicate AllUnique(t: Tables.Table<Category>) {
    forall i, j :: i in t.rows && j in t.rows && i != j ==>
      t.rows[i].name != t.rows[j].name && t.rows[i].slug != t.rows[j].slug
  }

  ghost predicate CategoriesOk(t: Tables.Table<Category>) {
    && Tables.Valid(t)
    && (forall k :: k in t.rows ==> t.rows[k].id == Some(k) && CategoryRowOk(t.rows[k]))
    && AllUnique(t)
  }

  ghost predicate ProductsOk(t: Tables.Table<Product>, cats: Tables.Table<Category>) {
    && Tables.Valid(t)
    && (forall k :: k in t.rows ==> t.rows[k].id == Some(k) && ProductRowOk(t.rows[k]) && LinkOk(t.rows[k], cats))
  }

  ghost predicate ContactsOk(t: Tables.Table<ContactRequest>, isEmail: string -> bool) {
    && Tables.Valid(t)
    && (forall k :: k in t.rows ==>
          && t.rows[k].id == Some(k) && ContactRowOk(t.rows[k], isEmail)
          && Stamped(t.rows[k]))
  }

  /** Both timestamps are set. Nothing orders them: each is whatever the
      clock read when it was stamped. */
  predicate Stamped(c: ContactRequest) {
    c.createdAt.Some? && c.updatedAt.Some?
  }

  /** The catalogue half of the store: categories and products. */
  ghost predicate CatalogOk(db: Db) {
    CategoriesOk(db.categories) && ProductsOk(db.products, db.categories)
  }

  ghost predicate Valid(db: Db, isEmail: string -> bool) {
    CatalogOk(db) && ContactsOk(db.contacts, isEmail)
  }

  // ------------------------------------------------------------------ reads

  /** A product as the persistence layer hands it out: its relation carries
      the current name of the Category it points at. */
  function Live(db: Db, p: Product): (r: Product)
    ensures r.(category := p.category) == p
    ensures r.category.None? <==> p.category.None?
    ensures p.category.Some? ==> r.category.value.id == p.category.value.id
    ensures LinkOk(p, db.categories) && p.category.Some? ==>
      r.category.value.name == db.categories.rows[p.category.value.id.value].name
  {
    if LinkOk(p, db.categories) && p.category.Some? then
      var k := p.category.value.id.value;
      p.(category := Some(CategoryRef(Some(k), db.categories.rows[k].name)))
    else p
  }

  /** `findAll` on the products repository. */
  function AllProducts(db: Db): (r: seq<Product>)
    requires Tables.Valid(db.products)
    ensures |r| == |db.products.order|
    ensures forall i :: 0 <= i < |r| ==>
      db.products.order[i] in db.products.rows && r[i] == Live(db, db.products.rows[db.products.order[i]])
    ensures ProductsOk(db.products, db.categories) ==> forall i :: 0 <= i < |r| ==> ProductRowOk(r[i])
  {
    var r := Seqs.Map(Tables.Values(db.products), p => Live(db, p));
    assert ProductsOk(db.products, db.categories) ==> forall i :: 0 <= i < |r| ==> ProductRowOk(r[i]) by {
      if ProductsOk(db.products, db.categories) {
        forall i | 0 <= i < |r|
          ensures ProductRowOk(r[i])
        {
          var k := db.products.order[i];
          assert k in db.products.rows;
          assert ProductRowOk(db.products.rows[k]);
        }
      }
    }
    r
  }

  predicate InCategory(p: Product, k: int) {
    p.category.Some? && p.category.value.id == Some(k)
  }

  /** The product list of Category `k`: the products whose relation points
      at it, in table order. */
  function ProductsOf(db: Db, k: int): (r: seq<Product>)
    requires Tables.Valid(db.products)
    ensures forall i :: 0 <= i < |r| ==> InCategory(r[i], k) && r[i] in AllProducts(db)
    ensures forall p :: p in AllProducts(db) && InCategory(p, k) ==> p in r
  {
    Seqs.Filter(AllProducts(db), p => InCategory(p, k))
  }

  /** A Category as the persistence layer hands it out, its product list
      loaded. */
  function Loaded(db: Db, c: Category): (r: Category)
    requires Tables.Valid(db.products)
    ensures r.(products := c.products) == c
    ensures c.id.Some? ==> r.products == Some(ProductsOf(db, c.id.value))
  {
    if c.id.Some? then c.(products := Some(ProductsOf(db, c.id.value))) else c
  }

  /** `findAll` on the categories repository. */
  function AllCategories(db: Db): (r: seq<Category>)
    requires Tables.Valid(db.categories) && Tables.Valid(db.products)
    ensures |r| == |db.categories.order|
    ensures forall i :: 0 <= i < |r| ==>
      db.categories.order[i] in db.categories.rows && r[i] == Loaded(db, db.categories.rows[db.categories.order[i]])
  {
    Seqs.Map(Tables.Values(db.categories), c => Loaded(db, c))
  }

  // ----------------------------------------------------------------- writes

  /** The key `save` writes: the entity's own id when such a row exists (an
      update), the newId identity otherwise (an insert). */
  function SaveKey<E>(t: Tables.Table<E>, id: JLong, newId: int): (k: int)
    requires newId !in t.rows
    ensures k in t.rows <==> id.Some? && id.value in t.rows
    ensures k in t.rows ==> id == Some(k)
  {
    if id.Some? && id.value in t.rows then id.value else newId
  }

  /** `save` on the products repository. The row is refused when the title
      is null, a text value is longer than its column, or the relation
      dangles. */
  function SaveProduct(db: Db, p: Product, newId: int): (r: Result<(Db, Product)>)
    requires CatalogOk(db) && newId !in db.products.rows
    ensures r.Ok? <==> ProductRowOk(p) && LinkOk(p, db.categories)
    ensures r.Err? ==> r.error == ConstraintViolation("products")
    ensures r.Ok? ==>
      var (db', saved) := r.value;
      && CatalogOk(db')
      && db'.categories == db.categories && db'.contacts == db.contacts
      && saved.id.Some? && saved == p.(id := saved.id)
      && (p.id.Some? && p.id.value in db.products.rows ==> saved.id == p.id)
      && (saved.id.value in db.products.rows || saved.id == Some(newId))
      && db'.products.rows == db.products.rows[saved.id.value := saved]
  {
    if !(ProductRowOk(p) && LinkOk(p, db.categories)) then Err(ConstraintViolation("products"))
    else
      var k := SaveKey(db.products, p.id, newId);
      var saved := p.(id := Some(k));
      Ok((db.(products := Tables.Put(db.products, k, saved)), saved))
  }

  /** Whether the in-memory product list of `c` holds a product with this
      id. A null list holds none. */
  predicate Lists(c: Category, id: JLong) {
    c.products.Some? && exists q :: q in c.products.value && q.id == id
  }

  /** A product that a merge of `c` into row `k` leaves without its parent:
      it is related to `k`, but the list being merged does not hold it. */
  predicate Orphaned(p: Product, k: int, c: Category) {
    InCategory(p, k) && !Lists(c, p.id)
  }

  /** `save` on the categories repository. The row is refused when a column
      constraint fails or another row already has its name or slug.
      Otherwise `save` merges the entity into row `k`, and the merge
      replaces the stored product list with the entity's own. Orphan
      removal then deletes every product of `k` that the entity's list does
      not hold. A new row has no products yet, so an insert deletes
      nothing. */
  function SaveCategory(db: Db, c: Category, newId: int): (r: Result<(Db, Category)>)
    requires CatalogOk(db) && newId !in db.categories.rows
    ensures r.Ok? <==> CategoryRowOk(c) && Unique(db.categories, SaveKey(db.categories, c.id, newId), c)
    ensures r.Err? ==> r.error == ConstraintViolation("categories")
    ensures r.Ok? ==>
      var (db', saved) := r.value;
      && CatalogOk(db')
      && db'.contacts == db.contacts
      && saved.id.Some? && saved == c.(id := saved.id)
      && (c.id.Some? && c.id.value in db.categories.rows ==> saved.id == c.id)
      && (saved.id.value in db.categories.rows || saved.id == Some(newId))
      && db'.categories.rows == db.categories.rows[saved.id.value := saved]
      && (forall j :: j in db'.products.rows <==>
            j in db.products.rows && !Orphaned(db.products.rows[j], saved.id.value, c))
      && (forall j :: j in db'.products.rows ==> db'.products.rows[j] == db.products.rows[j])
      && ((forall j :: j in db.products.rows ==> !Orphaned(db.products.rows[j], saved.id.value, c)) ==>
            db'.products == db.products)
    ensures r.Ok? && r.value.1.id == Some(newId) ==> r.value.0.products == db.products
  {
    var k := SaveKey(db.categories, c.id, newId);
    if !(CategoryRowOk(c) && Unique(db.categories, k, c)) then Err(ConstraintViolation("categories"))
    else
      var saved := c.(id := Some(k));
      var cats := Tables.Put(db.categories, k, saved);
      var kept := if forall j | j in db.products.rows :: !Orphaned(db.products.rows[j], k, c) then db.products
                  else Tables.Retain(db.products, j => j in db.products.rows ==> !Orphaned(db.products.rows[j], k, c));
      PutCategoryOk(db.categories, k, saved);
      RetainKeepsProductsOk(db.products, kept, db.categories);
      LinksSurviveGrowth(kept, db.categories, cats);
      Ok((Db(cats, kept, db.contacts), saved))
  }

  /** Dropping product rows keeps the remaining rows well-formed. */
  lemma RetainKeepsProductsOk(t: Tables.Table<Product>, t': Tables.Table<Product>, cats: Tables.Table<Category>)
    requires ProductsOk(t, cats) && Tables.Valid(t')
    requires forall j :: j in t'.rows ==> j in t.rows && t'.rows[j] == t.rows[j]
    ensures ProductsOk(t', cats)
  {
  }

  /** Whether merging `c` into the row `stored` changes a persisted
      column. The timestamps are not compared: the creation time is not
      updatable and the update time is what a flush generates. */
  predicate Changes(stored: ContactRequest, c: ContactRequest) {
    c.(createdAt := stored.createdAt, updatedAt := stored.updatedAt) != stored
  }

  /** `save` on the contact-request repository at time `now`. An insert
      stamps both timestamps. An update keeps the stored creation time (the
      column is not updatable). It stamps the update time only when some
      column changes: an unchanged entity is not dirty, so no UPDATE is
      issued and the row stays exactly as it was. `now` is whatever the
      clock reads; it may be earlier than the stored creation time. */
  function SaveContact(db: Db, c: ContactRequest, now: Timestamp, newId: int,
                       isEmail: string -> bool): (r: Result<(Db, ContactRequest)>)
    requires Valid(db, isEmail) && newId !in db.contacts.rows
    ensures r.Ok? <==> ContactRowOk(c, isEmail)
    ensures r.Err? ==> r.error == ConstraintViolation("contact_request")
    ensures r.Ok? ==>
      var (db', saved) := r.value;
      && Valid(db', isEmail)
      && db'.categories == db.categories && db'.products == db.products
      && saved.id.Some?
      && saved == c.(id := saved.id, createdAt := saved.createdAt, updatedAt := saved.updatedAt)
      && (c.id.Some? && c.id.value in db.contacts.rows ==>
            var stored := db.contacts.rows[c.id.value];
            && saved.id == c.id && saved.createdAt == stored.createdAt
            && saved.updatedAt == (if Changes(stored, c) then Some(now) else stored.updatedAt)
            && (!Changes(stored, c) ==> saved == stored && db' == db))
      && (!(c.id.Some? && c.id.value in db.contacts.rows) ==>
            saved.id == Some(newId) && saved.createdAt == Some(now) && saved.updatedAt == Some(now))
      && db'.contacts == Tables.Put(db.contacts, saved.id.value, saved)
  {
    if !ContactRowOk(c, isEmail) then Err(ConstraintViolation("contact_request"))
    else
      var k := SaveKey(db.contacts, c.id, newId);
      var saved := Merged(db.contacts, c, k, now, isEmail);
      PutContactOk(db.contacts, k, saved, isEmail);
      if k in db.contacts.rows && saved == db.contacts.rows[k] then
        Tables.PutSame(db.contacts, k);
        Ok((db, saved))
      else
        Ok((db.(contacts := Tables.Put(db.contacts, k, saved)), saved))
  }

  /** The row that saving `c` under key `k` leaves in the table: the stored
      creation time or `now`, and the update time of an unchanged row or
      `now`. */
  function Merged(t: Tables.Table<ContactRequest>, c: ContactRequest, k: int, now: Timestamp,
                  isEmail: string -> bool): (saved: ContactRequest)
    requires ContactsOk(t, isEmail)
    ensures saved == c.(id := Some(k), createdAt := saved.createdAt, updatedAt := saved.updatedAt)
    ensures Stamped(saved)
    ensures k in t.rows ==>
      && saved.createdAt == t.rows[k].createdAt
      && saved.updatedAt == (if Changes(t.rows[k], c) then Some(now) else t.rows[k].updatedAt)
    ensures k in t.rows && c.id == Some(k) && !Changes(t.rows[k], c) ==> saved == t.rows[k]
    ensures k !in t.rows ==> saved.createdAt == Some(now) && saved.updatedAt == Some(now)
  {
    if k !in t.rows then c.(id := Some(k), createdAt := Some(now), updatedAt := Some(now))
    else
      var stored := t.rows[k];
      c.(id := Some(k), createdAt := stored.createdAt,
         updatedAt := if Changes(stored, c) then Some(now) else stored.updatedAt)
  }

  /** Writing a well-formed row under its own id keeps every row well-formed. */
  lemma PutCategoryRowsOk(t: Tables.Table<Category>, k: int, c: Category)
    requires forall j :: j in t.rows ==> t.rows[j].id == Some(j) && CategoryRowOk(t.rows[j])
    requires c.id == Some(k) && CategoryRowOk(c)
    ensures var t' := t.rows[k := c];
      forall j :: j in t' ==> t'[j].id == Some(j) && CategoryRowOk(t'[j])
  {
  }

  /** Writing a row that clashes with no other row keeps names and slugs unique. */
  lemma PutCategoryUnique(t: Tables.Table<Category>, k: int, c: Category)
    requires AllUnique(t) && Unique(t, k, c)
    ensures AllUnique(Tables.Table(t.rows[k := c], t.order))
  {
    var rows := t.rows[k := c];
    forall i, j | i in rows && j in rows && i != j
      ensures rows[i].name != rows[j].name && rows[i].slug != rows[j].slug
    {
      if i == k {
        assert t.rows[j].name != c.name && t.rows[j].slug != c.slug;
      } else if j == k {
        assert t.rows[i].name != c.name && t.rows[i].slug != c.slug;
      } else {
        assert rows[i] == t.rows[i] && rows[j] == t.rows[j];
      }
    }
  }

  /** Writing a well-formed row that clashes with no other row keeps the
      categories table well-formed. */
  lemma PutCategoryOk(t: Tables.Table<Category>, k: int, c: Category)
    requires CategoriesOk(t) && c.id == Some(k) && CategoryRowOk(c) && Unique(t, k, c)
    ensures CategoriesOk(Tables.Put(t, k, c))
  {
    var t' := Tables.Put(t, k, c);
    PutCategoryRowsOk(t, k, c);
    PutCategoryUnique(t, k, c);
    assert AllUnique(Tables.Table(t.rows[k := c], t.order)) ==> AllUnique(t');
  }

  /** Products that point at stored categories still do once the categories
      table only gains keys. */
  lemma LinksSurviveGrowth(t: Tables.Table<Product>, cats: Tables.Table<Category>, cats': Tables.Table<Category>)
    requires ProductsOk(t, cats) && cats.rows.Keys <= cats'.rows.Keys
    ensures ProductsOk(t, cats')
  {
    forall k | k in t.rows
      ensures LinkOk(t.rows[k], cats')
    {
      assert LinkOk(t.rows[k], cats);
    }
  }

  /** Writing a well-formed contact row under its own id keeps the table
      well-formed. */
  lemma PutContactOk(t: Tables.Table<ContactRequest>, k: int, c: ContactRequest, isEmail: string -> bool)
    requires ContactsOk(t, isEmail) && c.id == Some(k) && ContactRowOk(c, isEmail) && Stamped(c)
    ensures ContactsOk(Tables.Put(t, k, c), isEmail)
  {
    var t' := Tables.Put(t, k, c);
    forall j | j in t'.rows
      ensures t'.rows[j].id == Some(j) && ContactRowOk(t'.rows[j], isEmail) && Stamped(t'.rows[j])
    {
      if j != k {
        assert t'.rows[j] == t.rows[j];
      }
    }
  }

  /** `deleteById` on the products repository. */
  function DeleteProductRow(db: Db, k: int): (r: Db)
    requires CatalogOk(db)
    ensures CatalogOk(r)
    ensures r.categories == db.categories && r.contacts == db.contacts
    ensures r.products.rows == db.products.rows - {k}
  {
    db.(products := Tables.Remove(db.products, k))
  }

  /** `deleteById` on the categories repository: the Category's products go
      with it (cascade with orphan removal), every other row stays. */
  function DeleteCategoryRow(db: Db, k: int): (r: Db)
    requires CatalogOk(db)
    ensures CatalogOk(r)
    ensures r.contacts == db.contacts
    ensures r.categories.rows == db.categories.rows - {k}
    ensures forall j :: j in r.products.rows <==> j in db.products.rows && !InCategory(db.products.rows[j], k)
    ensures forall j :: j in r.products.rows ==> r.products.rows[j] == db.products.rows[j]
  {
    var products := Tables.Retain(db.products, j => j in db.products.rows ==> !InCategory(db.products.rows[j], k));
    var cats := Tables.Remove(db.categories, k);
    Db(cats, products, db.contacts)
  }

  /** `deleteById` on the contact-request repository. */
  function DeleteContactRow(db: Db, k: int, isEmail: string -> bool): (r: Db)
    requires Valid(db, isEmail)
    ensures Valid(r, isEmail)
    ensures r.categories == db.categories && r.products == db.products
    ensures r.contacts.rows == db.contacts.rows - {k}
  {
    db.(contacts := Tables.Remove(db.contacts, k))
  }
}
