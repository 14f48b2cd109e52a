/** The contact-request service: create, lookup, list, update and delete.
    The answers are the entities themselves. The clock is the parameter
    `now`; the `@Email` check is the parameter `isEmail`. */
module ContactService {
  import opened Wrappers
  import opened Text
  import opened Entities
  import opened Dtos
  import opened BeanValidation
  import opened Store
  import Tables

  function NotFoundMessage(id: int): string {
    "Contact request not found with id: " + IntToString(id)
  }

  /** No stored request is marked complete. */
  ghost predicate NoneComplete(t: Tables.Table<ContactRequest>) {
    forall k :: k in t.rows ==> !t.rows[k].complete
  }

  /** `createContactRequest`: a new request with name, email, phone and
      message from the DTO, not complete, stamped with `now`, stored under
      a new id at the end of the table. It is refused only when a row
      constraint fails; a validated DTO can still be refused for an email
      longer than its 100-character column. */
  function CreateContactRequest(db: Db, dto: ContactRequestDto, now: Timestamp, newId: int,
                                isEmail: string -> bool): (r: Result<(Db, ContactRequest)>)
    requires Valid(db, isEmail) && newId !in db.contacts.rows
    ensures ContactRequestDtoValid(dto, isEmail) && FitsColumn(dto.email, 100) ==> r.Ok?
    ensures r.Ok? <==>
      && NotBlank(dto.name) && NotBlank(dto.email) && NotBlank(dto.message)
      && (dto.email.Some? ==> isEmail(dto.email.value))
      && FitsColumn(dto.name, 100) && FitsColumn(dto.email, 100) && FitsColumn(dto.phone, 20)
    ensures r.Err? ==> r.error == ConstraintViolation("contact_request")
    ensures r.Ok? ==>
      var (db', out) := r.value;
      && Valid(db', isEmail)
      && db'.categories == db.categories && db'.products == db.products
      && out.id == Some(newId) && !out.complete
      && out.name == dto.name && out.email == dto.email && out.phone == dto.phone && out.message == dto.message
      && out.countryCode.None? && out.mobileNumber.None? && out.productId.None?
      && out.createdAt == Some(now) && out.updatedAt == Some(now)
      && db'.contacts.rows == db.contacts.rows[newId := out]
      && db'.contacts.order == db.contacts.order + [newId]
      && (NoneComplete(db.contacts) ==> NoneComplete(db'.contacts))
  {
    var e := BuildContactRequest(dto.name, dto.email, dto.phone, dto.message);
    var saved :- SaveContact(db, e, now, newId, isEmail);
    assert saved.1.id == Some(newId);
    PutKeepsNoneComplete(db.contacts, saved.0.contacts, newId, saved.1);
    Ok(saved)
  }

  /** `getContactRequestById`. */
  function GetContactRequestById(db: Db, id: int): (r: Result<ContactRequest>)
    requires Tables.Valid(db.contacts)
    ensures r.Ok? <==> id in db.contacts.rows
    ensures r.Ok? ==> r.value == db.contacts.rows[id]
    ensures r.Err? ==> r.error == NotFound(NotFoundMessage(id))
  {
    match Tables.Find(db.contacts, id)
    case None => Err(NotFound(NotFoundMessage(id)))
    case Some(c) => Ok(c)
  }

  /** `getAllContactRequests`: every stored request once, in store order. */
  function GetAllContactRequests(db: Db): (r: seq<ContactRequest>)
    requires Tables.Valid(db.contacts)
    ensures |r| == |db.contacts.order|
    ensures forall k :: k in db.contacts.rows <==> exists i :: 0 <= i < |r| && db.contacts.order[i] == k
    ensures forall i :: 0 <= i < |r| ==> r[i] == db.contacts.rows[db.contacts.order[i]]
  {
    Tables.Values(db.contacts)
  }

  /** `updateContactRequest`: an unknown id is not found; otherwise name,
      email, phone and message are overwritten (null included) and the row
      is saved in place: its id, completion flag, country code, mobile
      number, product id and creation time stay. The update time becomes
      `now` when one of the four values differs from the stored one; a
      request repeating all four leaves the row untouched. `now` is
      whatever the clock reads, with no order against the stored times. */
  function UpdateContactRequest(db: Db, id: int, dto: ContactRequestDto, now: Timestamp,
                                isEmail: string -> bool): (r: Result<(Db, ContactRequest)>)
    requires Valid(db, isEmail)
    ensures id !in db.contacts.rows ==> r == Err(NotFound(NotFoundMessage(id)))
    ensures id in db.contacts.rows ==>
      (r.Ok? <==> ContactRowOk(db.contacts.rows[id].(name := dto.name, email := dto.email, phone := dto.phone,
                                                   message := dto.message), isEmail))
    ensures r.Err? && id in db.contacts.rows ==> r.error == ConstraintViolation("contact_request")
    ensures r.Ok? ==>
      var (db', out) := r.value;
      var before := db.contacts.rows[id];
      var same := dto.name == before.name && dto.email == before.email
                  && dto.phone == before.phone && dto.message == before.message;
      && Valid(db', isEmail)
      && db'.categories == db.categories && db'.products == db.products
      && out == before.(name := dto.name, email := dto.email, phone := dto.phone, message := dto.message,
                        updatedAt := if same then before.updatedAt else Some(now))
      && (same ==> db' == db)
      && db'.contacts.rows == db.contacts.rows[id := out]
      && db'.contacts.order == db.contacts.order
      && (NoneComplete(db.contacts) ==> NoneComplete(db'.contacts))
  {
    match Tables.Find(db.contacts, id)
    case None => Err(NotFound(NotFoundMessage(id)))
    case Some(c) =>
      var e := c.(name := dto.name, email := dto.email, phone := dto.phone, message := dto.message);
      var saved :- SaveContact(db, e, now, Tables.NextKey(db.contacts), isEmail);
      assert saved.1.id == Some(id);
      PutKeepsNoneComplete(db.contacts, saved.0.contacts, id, saved.1);
      Ok(saved)
  }

  /** `deleteContactRequest`: an unknown id is not found; otherwise that
      row, and only it, is removed. */
  function DeleteContactRequest(db: Db, id: int, isEmail: string -> bool): (r: Result<Db>)
    requires Valid(db, isEmail)
    ensures r.Ok? <==> id in db.contacts.rows
    ensures r.Err? ==> r.error == NotFound(NotFoundMessage(id))
    ensures r.Ok? ==>
      && Valid(r.value, isEmail)
      && r.value.categories == db.categories && r.value.products == db.products
      && r.value.contacts.rows == db.contacts.rows - {id}
      && (NoneComplete(db.contacts) ==> NoneComplete(r.value.contacts))
  {
    if id !in db.contacts.rows then Err(NotFound(NotFoundMessage(id)))
    else Ok(DeleteContactRow(db, id, isEmail))
  }

  /** Writing an incomplete request keeps every request incomplete. */
  lemma PutKeepsNoneComplete(t: Tables.Table<ContactRequest>, t': Tables.Table<ContactRequest>,
                             k: int, c: ContactRequest)
    requires t'.rows == t.rows[k := c]
    ensures NoneComplete(t) && !c.complete ==> NoneComplete(t')
  {
  }

  /** An accepted update keeps the creation time, and reads back as saved.
      Its update time is `now`, unless nothing changed and the whole row
      is the stored one. Only a clock that has not run back since the
      creation keeps the update time at or after the creation time. */
  lemma UpdateKeepsCreationTime(db: Db, id: int, dto: ContactRequestDto, now: Timestamp,
                                isEmail: string -> bool)
    requires Valid(db, isEmail) && id in db.contacts.rows
    requires UpdateContactRequest(db, id, dto, now, isEmail).Ok?
    ensures var (db', out) := UpdateContactRequest(db, id, dto, now, isEmail).value;
      var before := db.contacts.rows[id];
      && out.createdAt == before.createdAt
      && (out.updatedAt == Some(now) || out == before)
      && GetContactRequestById(db', id) == Ok(out)
      && (before.createdAt.value <= before.updatedAt.value && before.createdAt.value <= now ==>
            out.createdAt.value <= out.updatedAt.value)
  {
  }

  /** Nothing orders the clock: a changing update stamped before the stored
      creation time leaves a request updated before it was created. */
  lemma BackwardClockInvertsStamps(db: Db, id: int, dto: ContactRequestDto, now: Timestamp,
                                   isEmail: string -> bool)
    requires Valid(db, isEmail) && id in db.contacts.rows
    requires now < db.contacts.rows[id].createdAt.value && dto.name != db.contacts.rows[id].name
    requires UpdateContactRequest(db, id, dto, now, isEmail).Ok?
    ensures var out := UpdateContactRequest(db, id, dto, now, isEmail).value.1;
      out.updatedAt == Some(now) && out.updatedAt.value < out.createdAt.value
  {
  }

  /** Sending the same update again, at any time, changes nothing
      and answers the same request: the second save finds no dirty column. */
  lemma RepeatedUpdateChangesNothing(db: Db, id: int, dto: ContactRequestDto, now: Timestamp, again: Timestamp,
                                     isEmail: string -> bool)
    requires Valid(db, isEmail) && id in db.contacts.rows
    requires UpdateContactRequest(db, id, dto, now, isEmail).Ok?
    ensures var first := UpdateContactRequest(db, id, dto, now, isEmail).value;
      UpdateContactRequest(first.0, id, dto, again, isEmail) == Ok(first)
  {
    var first := UpdateContactRequest(db, id, dto, now, isEmail).value;
    assert first.0.contacts.rows[id] == first.1;
  }
}
