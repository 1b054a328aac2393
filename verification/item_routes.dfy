/**
 The item routes (`routes/items.js`): create, list mine, list all, get one,
 delete and contact-owner. Every route except "list all" sits behind the
 token middleware, which runs before the handler; a rejected token is taken
 to be answered 401 there.
 There is no update route.
 */
module ItemRoutes {
  import opened Js
  import opened Model

  /** The text fields of the multipart create form; a field the client did not send is None. */
  datatype ItemForm = ItemForm(
    name: Option<string>,
    location: Option<string>,
    description: Option<string>,
    kind: Option<string>,
    date: Option<string>,
    phone: Option<string>)

  /** An item owner as `populate("user", "name")` resolves it: the user's id and name. */
  datatype Owner = Owner(id: UserId, name: string)

  /**
   An item as "list all" answers it: the stored fields, with the `user`
   reference replaced by the populated owner, or null when that user
   document is gone.
   */
  datatype ListedItem = ListedItem(
    name: string,
    location: string,
    description: Option<string>,
    kind: string,
    date: string,
    user: Option<Owner>,
    phone: Option<string>,
    image: Option<string>)

  /** `l` shows every stored field of `it` except the owner reference. */
  predicate ShowsFields(l: ListedItem, it: Item)
  {
    && l.name == it.name && l.location == it.location && l.description == it.description
    && l.kind == it.kind && l.date == it.date && l.phone == it.phone && l.image == it.image
  }

  /** The body of a contact-owner answer. */
  datatype ContactInfo = ContactInfo(ownerName: string, phone: Option<string>, email: string)

  /** The required fields of the create form are all truthy. */
  predicate HasRequiredFields(form: ItemForm)
  {
    Truthy(form.name) && Truthy(form.location) && Truthy(form.kind)
  }

  /**
   POST / — create an item. `file` is the name multer gave the uploaded
   image, if any; `now` is the ISO timestamp used when no date is sent;
   `newId` is the id the store assigns to the new document.
   */
  function CreateItem(s: Store, caller: Caller, form: ItemForm, file: Option<string>, now: string, newId: ItemId)
    : (r: Reply<(ItemId, Item)>)
    requires newId !in s.items
    ensures r.events == []
    ensures caller.Anonymous? ==> r.outcome == Unauthorized
    ensures caller.Authenticated? && !HasRequiredFields(form) ==> r.outcome == ValidationError
    ensures !r.outcome.Ok? ==> r.store == s
    ensures r.outcome.Ok? <==> caller.Authenticated? && HasRequiredFields(form)
    ensures r.outcome.Ok? ==>
      var it := r.outcome.value.1;
      && r.outcome.value.0 == newId
      && it.user == caller.id
      && Some(it.name) == form.name && Some(it.location) == form.location && Some(it.kind) == form.kind
      && it.description == form.description
      && (Truthy(form.date) ==> Some(it.date) == form.date)
      && (!Truthy(form.date) ==> it.date == now)
      && (Truthy(form.phone) ==> it.phone == form.phone)
      && (!Truthy(form.phone) ==> it.phone == None)
      && it.image == file
      && r.store == s.(items := s.items[newId := it])
  {
    match caller
    case Anonymous => Reject(s, Unauthorized)
    case Authenticated(uid) =>
      if !HasRequiredFields(form) then Reject(s, ValidationError)
      else
        var it := Item(
          name := form.name.value,
          location := form.location.value,
          description := form.description,
          kind := form.kind.value,
          date := Or(form.date, Some(now)).value,
          user := uid,
          phone := Or(form.phone, None),
          image := file);
        Reply(Ok((newId, it)), s.(items := s.items[newId := it]), [])
  }

  /** GET / — the caller's own items. */
  function ListMine(s: Store, caller: Caller): (r: Reply<map<ItemId, Item>>)
    ensures r.store == s && r.events == []
    ensures caller.Anonymous? ==> r.outcome == Unauthorized
    ensures caller.Authenticated? ==> r.outcome.Ok?
    ensures r.outcome.Ok? ==>
      && (forall id :: id in r.outcome.value <==> id in s.items && s.items[id].user == caller.id)
      && (forall id :: id in r.outcome.value ==> r.outcome.value[id] == s.items[id])
  {
    match caller
    case Anonymous => Reject(s, Unauthorized)
    case Authenticated(uid) =>
      Reply(Ok(map id | id in s.items && s.items[id].user == uid :: s.items[id]), s, [])
  }

  /** GET /all — every item with its owner's name; public. */
  function ListAll(s: Store): (r: Reply<map<ItemId, ListedItem>>)
    ensures r.store == s && r.events == []
    ensures r.outcome.Ok?
    ensures r.outcome.value.Keys == s.items.Keys
    ensures forall id :: id in r.outcome.value ==>
      && ShowsFields(r.outcome.value[id], s.items[id])
      && (s.items[id].user in s.users ==>
            r.outcome.value[id].user == Some(Owner(s.items[id].user, s.users[s.items[id].user].name)))
      && (s.items[id].user !in s.users ==> r.outcome.value[id].user == None)
  {
    var listed := map id | id in s.items :: Listed(s.users, s.items[id]);
    Reply(Ok(listed), s, [])
  }

  /** The "list all" entry for a stored item, with its owner populated. */
  function Listed(users: map<UserId, User>, it: Item): ListedItem
  {
    var owner := match Lookup(users, it.user)
                 case Some(u) => Some(Owner(it.user, u.name))
                 case None => None;
    ListedItem(it.name, it.location, it.description, it.kind, it.date, owner, it.phone, it.image)
  }

  /** GET /:id — one item; behind the token middleware. */
  function GetItem(s: Store, caller: Caller, id: ItemId): (r: Reply<Item>)
    ensures r.store == s && r.events == []
    ensures caller.Anonymous? ==> r.outcome == Unauthorized
    ensures caller.Authenticated? && id !in s.items ==> r.outcome == NotFound
    ensures caller.Authenticated? && id in s.items ==> r.outcome == Ok(s.items[id])
  {
    if caller.Anonymous? then Reject(s, Unauthorized)
    else if id !in s.items then Reject(s, NotFound)
    else Reply(Ok(s.items[id]), s, [])
  }

  /**
   DELETE /:id — the owner removes an item. A missing item is reported
   before ownership is compared; comments on the item are left in place.
   */
  function DeleteItem(s: Store, caller: Caller, id: ItemId): (r: Reply<()>)
    ensures r.events == []
    ensures caller.Anonymous? ==> r.outcome == Unauthorized
    ensures caller.Authenticated? && id !in s.items ==> r.outcome == NotFound
    ensures caller.Authenticated? && id in s.items && s.items[id].user != caller.id ==> r.outcome == Forbidden
    ensures r.outcome.Ok? <==> caller.Authenticated? && id in s.items && s.items[id].user == caller.id
    ensures !r.outcome.Ok? ==> r.store == s
    ensures r.outcome.Ok? ==> r.store == s.(items := s.items - {id})
  {
    match caller
    case Anonymous => Reject(s, Unauthorized)
    case Authenticated(uid) =>
      if id !in s.items then Reject(s, NotFound)
      else if s.items[id].user != uid then Reject(s, Forbidden)
      else Reply(Ok(()), s.(items := s.items - {id}), [])
  }

  /**
   GET /contact/:id — how to reach an item's owner. The item's own phone
   wins when it is truthy, the owner's profile phone is the fallback. An
   item whose owner document is gone makes the handler throw on the null
   owner, which it answers with 500.
   */
  function ContactOwner(s: Store, caller: Caller, id: ItemId): (r: Reply<ContactInfo>)
    ensures r.store == s && r.events == []
    ensures caller.Anonymous? ==> r.outcome == Unauthorized
    ensures caller.Authenticated? && id !in s.items ==> r.outcome == NotFound
    ensures caller.Authenticated? && id in s.items && s.items[id].user !in s.users ==> r.outcome == InternalError
    ensures r.outcome.Ok? <==> caller.Authenticated? && id in s.items && s.items[id].user in s.users
    ensures r.outcome.Ok? ==>
      var owner := s.users[s.items[id].user];
      && r.outcome.value.ownerName == owner.name
      && r.outcome.value.email == owner.email
      && (Truthy(s.items[id].phone) ==> r.outcome.value.phone == s.items[id].phone)
      && (!Truthy(s.items[id].phone) ==> r.outcome.value.phone == owner.phone)
  {
    if caller.Anonymous? then Reject(s, Unauthorized)
    else if id !in s.items then Reject(s, NotFound)
    else
      var it := s.items[id];
      match Lookup(s.users, it.user)
      case None => Reject(s, InternalError)
      case Some(owner) => Reply(Ok(ContactInfo(owner.name, Or(it.phone, owner.phone), owner.email)), s, [])
  }

  /** A created item is what a later get-by-id returns, to any signed-in caller. */
  lemma CreateThenGet(s: Store, creator: UserId, form: ItemForm, file: Option<string>, now: string, newId: ItemId, reader: UserId)
    requires newId !in s.items && HasRequiredFields(form)
    ensures
      var created := CreateItem(s, Authenticated(creator), form, file, now, newId);
      var got := GetItem(created.store, Authenticated(reader), newId);
      && got.outcome.Ok?
      && got.outcome == Ok(created.outcome.value.1)
      && got.outcome.value.user == creator
  {
  }

  /** Creating an item and deleting it as its owner gives back the original store. */
  lemma CreateThenDeleteRestores(s: Store, creator: UserId, form: ItemForm, file: Option<string>, now: string, newId: ItemId)
    requires newId !in s.items && HasRequiredFields(form)
    ensures
      var created := CreateItem(s, Authenticated(creator), form, file, now, newId);
      var deleted := DeleteItem(created.store, Authenticated(creator), newId);
      deleted.outcome == Ok(()) && deleted.store == s
  {
  }

  /** After a successful delete the item is gone: get-by-id answers NotFound. */
  lemma DeleteThenGetNotFound(s: Store, caller: UserId, id: ItemId, reader: UserId)
    requires id in s.items && s.items[id].user == caller
    ensures GetItem(DeleteItem(s, Authenticated(caller), id).store, Authenticated(reader), id).outcome == NotFound
  {
  }

  /**
   A new item joins its creator's "mine" list and nobody else's: every other
   user's list is what it was.
   */
  lemma CreateShowsInMineOnly(s: Store, creator: UserId, form: ItemForm, file: Option<string>, now: string, newId: ItemId, other: UserId)
    requires newId !in s.items && HasRequiredFields(form)
    ensures
      var created := CreateItem(s, Authenticated(creator), form, file, now, newId);
      && newId in ListMine(created.store, Authenticated(creator)).outcome.value
      && (other != creator ==> ListMine(created.store, Authenticated(other)).outcome == ListMine(s, Authenticated(other)).outcome)
  {
    var created := CreateItem(s, Authenticated(creator), form, file, now, newId);
    var it := created.outcome.value.1;
    var s' := s.(items := s.items[newId := it]);
    assert created.store == s' && it.user == creator;
    if other != creator {
      var after := ListMine(s', Authenticated(other)).outcome.value;
      var before := ListMine(s, Authenticated(other)).outcome.value;
      forall id
        ensures id in after <==> id in before
      {
        if id == newId {
          assert id !in after;
        }
      }
      assert after == before;
    }
  }

  /**
   The two phone fallbacks compose: after a create, the contact lookup on
   the new item answers the phone sent with the form when it was truthy,
   and the creator's profile phone otherwise.
   */
  lemma CreateThenContact(s: Store, creator: UserId, form: ItemForm, file: Option<string>, now: string, newId: ItemId, reader: UserId)
    requires newId !in s.items && HasRequiredFields(form) && creator in s.users
    ensures
      var created := CreateItem(s, Authenticated(creator), form, file, now, newId);
      var owner := s.users[creator];
      ContactOwner(created.store, Authenticated(reader), newId).outcome
        == Ok(ContactInfo(owner.name, if Truthy(form.phone) then form.phone else owner.phone, owner.email))
  {
  }

  /**
   "List mine" and "list all" agree: every item in a user's own list is in
   the public list with the same fields, populated with that user when the
   user exists and with null otherwise; and every item of the public list
   whose owner is populated is in that owner's own list.
   */
  lemma MineAndAllAgree(s: Store, u: UserId)
    ensures
      var mine := ListMine(s, Authenticated(u)).outcome.value;
      var all := ListAll(s).outcome.value;
      forall id :: id in mine ==>
        && id in all && ShowsFields(all[id], mine[id])
        && (u in s.users ==> all[id].user == Some(Owner(u, s.users[u].name)))
        && (u !in s.users ==> all[id].user == None)
    ensures
      var all := ListAll(s).outcome.value;
      forall id :: id in all && all[id].user.Some? ==> id in ListMine(s, Authenticated(all[id].user.value.id)).outcome.value
  {
  }

  /**
   The phone fallback of the contact route, on the example of a user whose
   profile phone is 555-1000: with no phone on the item the profile phone
   is answered, with 555-2000 on the item that one is.
   */
  lemma ContactPhoneFallbackExample(s: Store, owner: UserId, id: ItemId, reader: UserId)
    requires owner in s.users && s.users[owner].phone == Some("555-1000")
    requires id in s.items && s.items[id].user == owner
    ensures
      var noPhone := s.(items := s.items[id := s.items[id].(phone := None)]);
      ContactOwner(noPhone, Authenticated(reader), id).outcome.value.phone == Some("555-1000")
    ensures
      var ownPhone := s.(items := s.items[id := s.items[id].(phone := Some("555-2000"))]);
      ContactOwner(ownPhone, Authenticated(reader), id).outcome.value.phone == Some("555-2000")
  {
  }
}
