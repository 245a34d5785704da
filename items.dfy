/**
 * The item handlers: listing by category (public) and by owner, and the
 * create, update and remove mutations.
 */
module Items {
  import opened Common
  import opened Schema
  import opened Db

  /** A listed item: the stored row with its id and its resolved image URL. */
  type ItemView = View<Item>

  /**
   * `listByCategory`: every item filed under `categoryId`, whoever owns it,
   * in creation order, each with its image URL; no identity needed.
   */
  function ListByCategory(db: Store, categoryId: CategoryId, resolve: BlobId -> Option<Url>): (r: seq<ItemView>)
    reads db
    requires db.Valid()
    ensures forall i :: 0 <= i < |r| ==>
      r[i].id in db.items && r[i].doc.categoryId == categoryId && r[i] == ViewOf(r[i].id, db.items[r[i].id], db.items[r[i].id].imageId, resolve)
    ensures forall k :: k in db.items && db.items[k].categoryId == categoryId ==> ViewOf(k, db.items[k], db.items[k].imageId, resolve) in r
    ensures forall i, j :: 0 <= i < j < |r| ==> r[i].id < r[j].id
  {
    Listing(db.items, db.nextId, (it: Item) => it.categoryId == categoryId, (it: Item) => it.imageId, resolve)
  }

  /**
   * `listByUser`: the caller's own items in creation order, each with its
   * image URL; nothing for an anonymous caller.
   */
  function ListByUser(db: Store, caller: Option<UserId>, resolve: BlobId -> Option<Url>): (r: seq<ItemView>)
    reads db
    requires db.Valid()
    ensures caller.None? ==> r == []
    ensures forall i :: 0 <= i < |r| ==>
      caller.Some? && r[i].id in db.items && r[i].doc.userId == caller.value
      && r[i] == ViewOf(r[i].id, db.items[r[i].id], db.items[r[i].id].imageId, resolve)
    ensures caller.Some? ==> forall k :: k in db.items && db.items[k].userId == caller.value ==>
      ViewOf(k, db.items[k], db.items[k].imageId, resolve) in r
    ensures forall i, j :: 0 <= i < j < |r| ==> r[i].id < r[j].id
  {
    match caller
    case None => []
    case Some(u) => Listing(db.items, db.nextId, (it: Item) => it.userId == u, (it: Item) => it.imageId, resolve)
  }

  /** The error `update` and `remove` raise, if any, before writing. */
  function Guard(items: map<ItemId, Item>, caller: Option<UserId>, id: ItemId): (r: Result<UserId>)
    ensures r.Ok? <==> caller.Some? && OwnsItem(items, id, caller.value)
    ensures caller.None? ==> r == Err(NotLoggedIn)
    ensures caller.Some? && !OwnsItem(items, id, caller.value) ==> r == Err(ItemNotFoundOrUnauthorized)
    ensures r.Ok? ==> r.value == caller.value
  {
    match RequireUser(caller)
    case Err(e) => Err(e)
    case Ok(u) => if OwnsItem(items, id, u) then Ok(u) else Err(ItemNotFoundOrUnauthorized)
  }

  /**
   * `create`: a signed-in caller files a new item, owned by them, under a
   * category they own; the list form `imageIds` is left absent.
   */
  method Create(db: Store, caller: Option<UserId>, name: string, description: Option<string>,
                price: Number, quantity: Number, categoryId: CategoryId, imageId: Option<BlobId>)
    returns (r: Result<ItemId>)
    requires db.Valid()
    modifies db
    ensures db.Valid()
    ensures r.Err? ==> unchanged(db)
    ensures r.Err? <==> caller.None? || !OwnsCategory(old(db.categories), categoryId, caller.value)
    ensures caller.None? ==> r == Err(NotLoggedIn)
    ensures caller.Some? && !OwnsCategory(old(db.categories), categoryId, caller.value) ==>
      r == Err(CategoryNotFoundOrUnauthorized)
    ensures r.Ok? ==>
      && r.value !in old(db.items) && r.value !in old(db.categories) && r.value !in old(db.banners)
      && db.items == old(db.items)[r.value := Item(name, description, price, quantity, imageId, None, categoryId, caller.value)]
      && OwnsCategory(db.categories, categoryId, caller.value)
      && db.categories == old(db.categories) && db.banners == old(db.banners)
    ensures old(db.ItemsLinked()) ==> db.ItemsLinked()
    ensures old(db.OneBannerPerUser()) ==> db.OneBannerPerUser()
  {
    var auth := RequireUser(caller);
    if auth.Err? {
      return Err(auth.error);
    }
    if !OwnsCategory(db.categories, categoryId, auth.value) {
      return Err(CategoryNotFoundOrUnauthorized);
    }
    var id := db.NewId();
    db.items := db.items[id := Item(name, description, price, quantity, imageId, None, categoryId, auth.value)];
    r := Ok(id);
  }

  /**
   * `update`: the owner replaces name, price and quantity and, when given,
   * the description and the legacy image; the category, the owner and the
   * image list stay as they were.
   */
  method Update(db: Store, caller: Option<UserId>, id: ItemId, name: string, description: Option<string>,
                price: Number, quantity: Number, imageId: Option<BlobId>)
    returns (r: Result<()>)
    requires db.Valid()
    modifies db
    ensures db.Valid()
    ensures r.Err? ==> unchanged(db)
    ensures r.Err? <==> caller.None? || !OwnsItem(old(db.items), id, caller.value)
    ensures caller.None? ==> r == Err(NotLoggedIn)
    ensures caller.Some? && !OwnsItem(old(db.items), id, caller.value) ==> r == Err(ItemNotFoundOrUnauthorized)
    ensures r.Ok? ==>
      && db.items.Keys == old(db.items.Keys)
      && db.items[id].name == name && db.items[id].price == price && db.items[id].quantity == quantity
      && db.items[id].description == (if description.Some? then description else old(db.items[id].description))
      && db.items[id].imageId == (if imageId.Some? then imageId else old(db.items[id].imageId))
      && db.items[id].imageIds == old(db.items[id].imageIds)
      && db.items[id].categoryId == old(db.items[id].categoryId)
      && db.items[id].userId == old(db.items[id].userId)
      && (forall k :: k in db.items && k != id ==> db.items[k] == old(db.items[k]))
      && db.categories == old(db.categories) && db.banners == old(db.banners) && db.nextId == old(db.nextId)
    ensures old(db.ItemsLinked()) ==> db.ItemsLinked()
    ensures old(db.OneBannerPerUser()) ==> db.OneBannerPerUser()
  {
    var guard := Guard(db.items, caller, id);
    if guard.Err? {
      return Err(guard.error);
    }
    var it := db.items[id];
    var patched := it.(name := name, price := price, quantity := quantity,
                       description := if description.Some? then description else it.description,
                       imageId := if imageId.Some? then imageId else it.imageId);
    db.items := db.items[id := patched];
    r := Ok(());
  }

  /** `remove`: the owner deletes exactly that item; nothing else changes. */
  method Remove(db: Store, caller: Option<UserId>, id: ItemId) returns (r: Result<()>)
    requires db.Valid()
    modifies db
    ensures db.Valid()
    ensures r.Err? ==> unchanged(db)
    ensures r.Err? <==> caller.None? || !OwnsItem(old(db.items), id, caller.value)
    ensures caller.None? ==> r == Err(NotLoggedIn)
    ensures caller.Some? && !OwnsItem(old(db.items), id, caller.value) ==> r == Err(ItemNotFoundOrUnauthorized)
    ensures r.Ok? ==>
      && db.items == old(db.items) - {id}
      && db.categories == old(db.categories) && db.banners == old(db.banners) && db.nextId == old(db.nextId)
    ensures old(db.ItemsLinked()) ==> db.ItemsLinked()
    ensures old(db.OneBannerPerUser()) ==> db.OneBannerPerUser()
  {
    var guard := Guard(db.items, caller, id);
    if guard.Err? {
      return Err(guard.error);
    }
    db.items := db.items - {id};
    r := Ok(());
  }
}
