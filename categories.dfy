/**
 * The category handlers: the owner's listing, the public listing, and the
 * create, update and remove mutations (remove cascades to the category's
 * items).
 */
module Categories {
  import opened Common
  import opened Schema
  import opened Text
  import opened Db

  /** A listed category: the stored row with its id and its resolved image URL. */
  type CategoryView = View<Category>

  /**
   * Index order of the name indexes: ascending name, and creation order
   * (ascending id) between equal names.
   */
  predicate Before(a: CategoryView, b: CategoryView)
  {
    StrLess(a.doc.name, b.doc.name) || (a.doc.name == b.doc.name && a.id < b.id)
  }

  predicate SortedByName(s: seq<CategoryView>)
  {
    forall i, j :: 0 <= i < j < |s| ==> Before(s[i], s[j])
  }

  predicate DistinctIds(s: seq<CategoryView>)
  {
    forall i, j :: 0 <= i < j < |s| ==> s[i].id != s[j].id
  }

  lemma BeforeIrreflexive(a: CategoryView)
    ensures !Before(a, a)
  {
    StrLessIrreflexive(a.doc.name);
  }

  lemma BeforeTransitive(a: CategoryView, b: CategoryView, c: CategoryView)
    requires Before(a, b) && Before(b, c)
    ensures Before(a, c)
  {
    if StrLess(a.doc.name, b.doc.name) && StrLess(b.doc.name, c.doc.name) {
      StrLessTransitive(a.doc.name, b.doc.name, c.doc.name);
    }
  }

  lemma BeforeTotal(a: CategoryView, b: CategoryView)
    requires a.id != b.id
    ensures Before(a, b) || Before(b, a)
  {
    StrLessTotal(a.doc.name, b.doc.name);
  }

  /** A view before the first of a name-ordered sequence may go in front of it. */
  lemma PrependBefore(x: CategoryView, s: seq<CategoryView>)
    requires SortedByName(s) && s != [] && Before(x, s[0])
    ensures SortedByName([x] + s)
  {
    forall i, j | 0 <= i < j < |[x] + s| ensures Before(([x] + s)[i], ([x] + s)[j]) {
      if i == 0 && j > 1 {
        BeforeTransitive(x, s[0], s[j - 1]);
      }
    }
  }

  /**
   * Putting `x` into the tail of `s` keeps the head of `s` first, when the
   * head comes before `x`.
   */
  lemma HeadStaysFirst(s: seq<CategoryView>, x: CategoryView, t: seq<CategoryView>)
    requires SortedByName(s) && s != [] && Before(s[0], x)
    requires SortedByName(t) && multiset(t) == multiset(s[1..]) + multiset{x}
    ensures SortedByName([s[0]] + t)
  {
    forall j | 0 <= j < |t| ensures Before(s[0], t[j]) {
      assert t[j] in multiset(t);
      if t[j] != x {
        assert t[j] in multiset(s[1..]);
        assert t[j] in s[1..];
        var k :| 1 <= k < |s| && s[k] == t[j];
      }
    }
  }

  /** Puts `x` into its place in the name-ordered `s`. */
  function Insert(x: CategoryView, s: seq<CategoryView>): (r: seq<CategoryView>)
    requires SortedByName(s)
    requires forall i :: 0 <= i < |s| ==> s[i].id != x.id
    ensures multiset(r) == multiset(s) + multiset{x}
    ensures SortedByName(r)
  {
    if s == [] then [x]
    else if Before(x, s[0]) then
      PrependBefore(x, s);
      [x] + s
    else
      BeforeTotal(x, s[0]);
      var t := Insert(x, s[1..]);
      HeadStaysFirst(s, x, t);
      assert s == [s[0]] + s[1..];
      [s[0]] + t
  }

  /**
   * The order in which the name indexes return categories: a permutation of
   * the input, ascending by name, equal names in creation order.
   */
  function SortByName(s: seq<CategoryView>): (r: seq<CategoryView>)
    requires DistinctIds(s)
    ensures multiset(r) == multiset(s)
    ensures SortedByName(r)
  {
    if s == [] then []
    else
      var t := SortByName(s[1..]);
      assert forall i :: 0 <= i < |t| ==> t[i].id != s[0].id by {
        forall i | 0 <= i < |t| ensures t[i].id != s[0].id {
          assert t[i] in multiset(s[1..]);
          var k :| 1 <= k < |s| && s[k] == t[i] by {
            assert t[i] in s[1..];
          }
        }
      }
      assert s == [s[0]] + s[1..];
      Insert(s[0], t)
  }

  /** A permutation shows the same rows. */
  lemma SameMembers(r: seq<CategoryView>, s: seq<CategoryView>)
    requires multiset(r) == multiset(s)
    ensures forall v :: v in r <==> v in s
  {
    forall v ensures v in r <==> v in s {
      assert v in r <==> v in multiset(r);
    }
  }

  /**
   * `list`: the caller's own categories in name order, each with its image
   * URL; nothing for an anonymous caller.
   */
  function List(db: Store, caller: Option<UserId>, resolve: BlobId -> Option<Url>): (r: seq<CategoryView>)
    reads db
    requires db.Valid()
    ensures caller.None? ==> r == []
    ensures forall v :: v in r ==>
      && caller.Some?
      && v.id in db.categories && v.doc == db.categories[v.id]
      && v.doc.userId == caller.value
      && v == ViewOf(v.id, v.doc, v.doc.imageId, resolve)
    ensures caller.Some? ==> forall k :: k in db.categories && db.categories[k].userId == caller.value ==>
      ViewOf(k, db.categories[k], db.categories[k].imageId, resolve) in r
    ensures SortedByName(r)
  {
    match caller
    case None => []
    case Some(u) =>
      var rows := Listing(db.categories, db.nextId, (c: Category) => c.userId == u, (c: Category) => c.imageId, resolve);
      var r := SortByName(rows);
      SameMembers(r, rows);
      r
  }

  /**
   * `listPublic`: every category of every owner in name order, each with its
   * image URL; no identity needed.
   */
  function ListPublic(db: Store, resolve: BlobId -> Option<Url>): (r: seq<CategoryView>)
    reads db
    requires db.Valid()
    ensures forall v :: v in r ==> v.id in db.categories && v == ViewOf(v.id, db.categories[v.id], db.categories[v.id].imageId, resolve)
    ensures forall k :: k in db.categories ==> ViewOf(k, db.categories[k], db.categories[k].imageId, resolve) in r
    ensures SortedByName(r)
  {
    var rows := Listing(db.categories, db.nextId, (c: Category) => true, (c: Category) => c.imageId, resolve);
    var r := SortByName(rows);
    SameMembers(r, rows);
    r
  }

  /** A listing in name order never shows a category twice. */
  lemma ListedOnce(db: Store, r: seq<CategoryView>, resolve: BlobId -> Option<Url>)
    requires SortedByName(r)
    requires forall v :: v in r ==> v.id in db.categories && v == ViewOf(v.id, db.categories[v.id], db.categories[v.id].imageId, resolve)
    ensures DistinctIds(r)
  {
    forall i, j | 0 <= i < j < |r| ensures r[i].id != r[j].id {
      if r[i].id == r[j].id {
        assert r[i] in r && r[j] in r;
        BeforeIrreflexive(r[i]);
      }
    }
  }

  /** The error `update` and `remove` raise, if any, before writing. */
  function Guard(cats: map<CategoryId, Category>, caller: Option<UserId>, id: CategoryId): (r: Result<UserId>)
    ensures r.Ok? <==> caller.Some? && OwnsCategory(cats, id, caller.value)
    ensures caller.None? ==> r == Err(NotLoggedIn)
    ensures caller.Some? && !OwnsCategory(cats, id, caller.value) ==> r == Err(CategoryNotFoundOrUnauthorized)
    ensures r.Ok? ==> r.value == caller.value
  {
    match RequireUser(caller)
    case Err(e) => Err(e)
    case Ok(u) => if OwnsCategory(cats, id, u) then Ok(u) else Err(CategoryNotFoundOrUnauthorized)
  }

  /**
   * `create`: a signed-in caller gets a new category that they own, with no
   * banner image; an anonymous caller gets `NotLoggedIn` and nothing changes.
   */
  method Create(db: Store, caller: Option<UserId>, name: string, description: Option<string>, imageId: Option<BlobId>)
    returns (r: Result<CategoryId>)
    requires db.Valid()
    modifies db
    ensures db.Valid()
    ensures r.Err? <==> caller.None?
    ensures r.Err? ==> r.error == NotLoggedIn && unchanged(db)
    ensures r.Ok? ==>
      && r.value !in old(db.categories) && r.value !in old(db.items) && r.value !in old(db.banners)
      && db.categories == old(db.categories)[r.value := Category(name, description, imageId, None, caller.value)]
      && db.items == old(db.items) && db.banners == old(db.banners)
    ensures old(db.ItemsLinked()) ==> db.ItemsLinked()
    ensures old(db.OneBannerPerUser()) ==> db.OneBannerPerUser()
  {
    var auth := RequireUser(caller);
    if auth.Err? {
      return Err(auth.error);
    }
    var id := db.NewId();
    db.categories := db.categories[id := Category(name, description, imageId, None, auth.value)];
    r := Ok(id);
  }

  /**
   * `update`: the owner replaces the name and, when given, the description
   * and the image; everything else stays as it was.
   */
  method Update(db: Store, caller: Option<UserId>, id: CategoryId, name: string,
                description: Option<string>, imageId: Option<BlobId>)
    returns (r: Result<()>)
    requires db.Valid()
    modifies db
    ensures db.Valid()
    ensures r.Err? ==> unchanged(db)
    ensures r.Err? <==> caller.None? || !OwnsCategory(old(db.categories), id, caller.value)
    ensures caller.None? ==> r == Err(NotLoggedIn)
    ensures caller.Some? && !OwnsCategory(old(db.categories), id, caller.value) ==> r == Err(CategoryNotFoundOrUnauthorized)
    ensures r.Ok? ==>
      && db.categories.Keys == old(db.categories.Keys)
      && db.categories[id].name == name
      && db.categories[id].description == (if description.Some? then description else old(db.categories[id].description))
      && db.categories[id].imageId == (if imageId.Some? then imageId else old(db.categories[id].imageId))
      && db.categories[id].bannerId == old(db.categories[id].bannerId)
      && db.categories[id].userId == old(db.categories[id].userId)
      && (forall k :: k in db.categories && k != id ==> db.categories[k] == old(db.categories[k]))
      && db.items == old(db.items) && db.banners == old(db.banners) && db.nextId == old(db.nextId)
    ensures old(db.ItemsLinked()) ==> db.ItemsLinked()
    ensures old(db.OneBannerPerUser()) ==> db.OneBannerPerUser()
  {
    var guard := Guard(db.categories, caller, id);
    if guard.Err? {
      return Err(guard.error);
    }
    var c := db.categories[id];
    var patched := c.(name := name,
                      description := if description.Some? then description else c.description,
                      imageId := if imageId.Some? then imageId else c.imageId);
    db.categories := db.categories[id := patched];
    r := Ok(());
  }

  /** The ids of the items of category `id`, in creation order (index `by_category`). */
  function ItemsOf(db: Store, id: CategoryId): (r: seq<ItemId>)
    reads db
    requires db.Valid()
    ensures forall k :: k in r <==> k in db.items && db.items[k].categoryId == id
  {
    Scan(db.items, db.nextId, (it: Item) => it.categoryId == id)
  }

  /** The items table without the items filed under category `id`. */
  function WithoutCategory(items: map<ItemId, Item>, id: CategoryId): (m: map<ItemId, Item>)
    ensures forall k :: k in m <==> k in items && items[k].categoryId != id
    ensures forall k :: k in m ==> m[k] == items[k]
  {
    map k | k in items && items[k].categoryId != id :: items[k]
  }

  /** The items table once the ids in `gone` have been deleted. */
  function Deleted(items: map<ItemId, Item>, gone: seq<ItemId>): (m: map<ItemId, Item>)
    ensures forall k :: k in m <==> k in items && k !in gone
    ensures forall k :: k in m ==> m[k] == items[k]
  {
    map k | k in items && k !in gone :: items[k]
  }

  /** Deleting one more id is one more map removal. */
  lemma DeletedStep(items: map<ItemId, Item>, gone: seq<ItemId>, x: ItemId)
    ensures Deleted(items, gone + [x]) == Deleted(items, gone) - {x}
  {
  }

  /** Deleting every id of `doomed` deletes exactly the items of category `id` when `doomed` lists just those. */
  lemma DeletedAll(items: map<ItemId, Item>, doomed: seq<ItemId>, id: CategoryId)
    requires forall k :: k in doomed <==> k in items && items[k].categoryId == id
    ensures Deleted(items, doomed) == WithoutCategory(items, id)
  {
  }

  /** Removing a category together with its items keeps every item linked to its owner's category. */
  lemma CascadeKeepsLinked(items: map<ItemId, Item>, cats: map<CategoryId, Category>, id: CategoryId)
    requires Linked(items, cats)
    ensures Linked(WithoutCategory(items, id), cats - {id})
  {
  }

  /**
   * The cascade of `remove`: deletes, one at a time and in creation order,
   * every item whose category is `id`.
   */
  method DeleteItemsOf(db: Store, id: CategoryId)
    requires db.Valid()
    modifies db
    ensures db.Valid()
    ensures db.items == WithoutCategory(old(db.items), id)
    ensures db.categories == old(db.categories) && db.banners == old(db.banners) && db.nextId == old(db.nextId)
  {
    var doomed := ItemsOf(db, id);
    for i := 0 to |doomed|
      invariant db.Valid()
      invariant db.items == Deleted(old(db.items), doomed[..i])
      invariant db.categories == old(db.categories) && db.banners == old(db.banners) && db.nextId == old(db.nextId)
    {
      assert doomed[..i + 1] == doomed[..i] + [doomed[i]];
      DeletedStep(old(db.items), doomed[..i], doomed[i]);
      db.items := db.items - {doomed[i]};
    }
    assert doomed[..|doomed|] == doomed;
    DeletedAll(old(db.items), doomed, id);
  }

  /**
   * `remove`: the owner deletes the category after deleting, one by one,
   * every item filed under it (whoever owns the item); the other items, the
   * other categories and the banners stay as they were.
   */
  method Remove(db: Store, caller: Option<UserId>, id: CategoryId) returns (r: Result<()>)
    requires db.Valid()
    modifies db
    ensures db.Valid()
    ensures r.Err? ==> unchanged(db)
    ensures r.Err? <==> caller.None? || !OwnsCategory(old(db.categories), id, caller.value)
    ensures caller.None? ==> r == Err(NotLoggedIn)
    ensures caller.Some? && !OwnsCategory(old(db.categories), id, caller.value) ==> r == Err(CategoryNotFoundOrUnauthorized)
    ensures r.Ok? ==>
      && db.categories == old(db.categories) - {id}
      && db.items == WithoutCategory(old(db.items), id)
      && db.banners == old(db.banners) && db.nextId == old(db.nextId)
    ensures r.Ok? ==> forall k :: k in db.items ==> db.items[k].categoryId != id
    ensures old(db.ItemsLinked()) ==> db.ItemsLinked()
    ensures old(db.OneBannerPerUser()) ==> db.OneBannerPerUser()
  {
    var guard := Guard(db.categories, caller, id);
    if guard.Err? {
      return Err(guard.error);
    }
    ghost var before := db.items;
    DeleteItemsOf(db, id);
    if Linked(before, db.categories) {
      CascadeKeepsLinked(before, db.categories, id);
    }
    db.categories := db.categories - {id};
    r := Ok(());
  }
}
