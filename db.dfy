/**
 * The document store the handlers run against: the three application
 * tables as maps from row id to row, and the id counter the store draws new
 * ids from. Each mutation handler runs as one atomic unit on it.
 */
module Db {
  import opened Common
  import opened Schema

  /**
   * The ids of `m` below `bound` whose rows satisfy `p`, in ascending order:
   * an index scan with an equality on the indexed field, which the store
   * returns in creation order.
   */
  function Scan<V>(m: map<Id, V>, bound: nat, p: V -> bool): (r: seq<Id>)
    ensures forall i :: 0 <= i < |r| ==> r[i] in m && r[i] < bound && p(m[r[i]])
    ensures forall k :: k in m && k < bound && p(m[k]) ==> k in r
    ensures forall i, j :: 0 <= i < j < |r| ==> r[i] < r[j]
  {
    if bound == 0 then []
    else
      var r := Scan(m, bound - 1, p);
      if bound - 1 in m && p(m[bound - 1]) then r + [bound - 1] else r
  }

  /**
   * A row as a query hands it to the client: the stored document with its
   * id and `imageUrl`, the resolved image (the `{ ...doc, imageUrl }` spread
   * of every listing).
   */
  datatype View<D> = View(id: Id, doc: D, imageUrl: Option<Url>)

  /**
   * The listing entry for row `id`: the stored document with its id, and
   * `imageUrl` null when the row names no image, otherwise whatever the file
   * store resolves the image to.
   */
  function ViewOf<D>(id: Id, doc: D, imageId: Option<BlobId>, resolve: BlobId -> Option<Url>): (v: View<D>)
    ensures v.id == id && v.doc == doc
    ensures imageId.None? ==> v.imageUrl.None?
    ensures imageId.Some? ==> v.imageUrl == resolve(imageId.value)
  {
    View(id, doc, ImageUrl(imageId, resolve))
  }

  /**
   * An index scan followed by the `map` that attaches image URLs: the rows
   * of `table` below `bound` that satisfy `p`, in creation order, each with
   * the URL of the image that `image` names.
   */
  function Listing<D>(table: map<Id, D>, bound: nat, p: D -> bool, image: D -> Option<BlobId>,
                      resolve: BlobId -> Option<Url>): (r: seq<View<D>>)
    ensures forall i :: 0 <= i < |r| ==>
      && r[i].id in table && r[i].id < bound && p(table[r[i].id])
      && r[i] == ViewOf(r[i].id, table[r[i].id], image(table[r[i].id]), resolve)
    ensures forall k :: k in table && k < bound && p(table[k]) ==>
      ViewOf(k, table[k], image(table[k]), resolve) in r
    ensures forall i, j :: 0 <= i < j < |r| ==> r[i].id < r[j].id
  {
    var ids := Scan(table, bound, p);
    var r := seq(|ids|, i requires 0 <= i < |ids| => ViewOf(ids[i], table[ids[i]], image(table[ids[i]]), resolve));
    assert forall k :: k in table && k < bound && p(table[k]) ==> ViewOf(k, table[k], image(table[k]), resolve) in r by {
      forall k | k in table && k < bound && p(table[k]) ensures ViewOf(k, table[k], image(table[k]), resolve) in r {
        var i :| 0 <= i < |ids| && ids[i] == k;
        assert r[i] == ViewOf(k, table[k], image(table[k]), resolve);
      }
    }
    r
  }

  /** `id` names a category that `u` owns: the check before writing under a category. */
  predicate OwnsCategory(cats: map<CategoryId, Category>, id: CategoryId, u: UserId)
  {
    id in cats && cats[id].userId == u
  }

  /** `id` names an item that `u` owns: the check before changing an item. */
  predicate OwnsItem(items: map<ItemId, Item>, id: ItemId, u: UserId)
  {
    id in items && items[id].userId == u
  }

  /** Every item is filed under an existing category of its own owner. */
  ghost predicate Linked(items: map<ItemId, Item>, categories: map<CategoryId, Category>)
  {
    forall k :: k in items ==> OwnsCategory(categories, items[k].categoryId, items[k].userId)
  }

  /** No two banners share an owner. */
  ghost predicate UniqueOwners(banners: map<BannerId, Banner>)
  {
    forall k, k' :: k in banners && k' in banners && k != k' ==> banners[k].userId != banners[k'].userId
  }

  class Store {
    var categories: map<CategoryId, Category>
    var items: map<ItemId, Item>
    var banners: map<BannerId, Banner>
    /** Every id issued so far is below `nextId`. */
    var nextId: Id

    /** Every row's id was issued by the counter, and ids are unique across tables. */
    ghost predicate Valid()
      reads this
    {
      && (forall k :: k in categories ==> k < nextId)
      && (forall k :: k in items ==> k < nextId)
      && (forall k :: k in banners ==> k < nextId)
      && categories.Keys !! items.Keys
      && categories.Keys !! banners.Keys
      && items.Keys !! banners.Keys
    }

    /**
     * Referential integrity of items: each item's category exists and
     * belongs to the item's owner. The schema does not enforce it; the
     * handlers keep it.
     */
    ghost predicate ItemsLinked()
      reads this
    {
      Linked(items, categories)
    }

    /** At most one banner per user. */
    ghost predicate OneBannerPerUser()
      reads this
    {
      UniqueOwners(banners)
    }

    /** An empty store. */
    constructor ()
      ensures Valid() && ItemsLinked() && OneBannerPerUser()
      ensures categories == map[] && items == map[] && banners == map[]
    {
      categories, items, banners := map[], map[], map[];
      nextId := 0;
    }

    /** Draws a fresh row id, used by no table, for an insert. */
    method NewId() returns (id: Id)
      requires Valid()
      modifies this`nextId
      ensures Valid()
      ensures id == old(nextId) && nextId == id + 1
      ensures id !in categories && id !in items && id !in banners
    {
      id := nextId;
      nextId := nextId + 1;
    }
  }
}
