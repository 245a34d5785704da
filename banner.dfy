/**
 * The banner handlers: the caller's banner, the storefront banner, and the
 * create (replace) and remove mutations.
 */
module Banners {
  import opened Common
  import opened Schema
  import opened Db

  /** A banner as returned to the client: the row with its id and its resolved image URL. */
  type BannerView = View<Banner>

  /** The ids of the banners `u` owns. */
  ghost function BannersOf(banners: map<BannerId, Banner>, u: UserId): set<BannerId>
  {
    set k | k in banners && banners[k].userId == u
  }

  /**
   * `.first()` on the `by_user` index: the earliest-created banner of `u`,
   * if they have one.
   */
  function FirstBannerOf(banners: map<BannerId, Banner>, bound: nat, u: UserId): (r: Option<BannerId>)
    requires forall k :: k in banners ==> k < bound
    ensures r.None? <==> BannersOf(banners, u) == {}
    ensures r.Some? ==> r.value in BannersOf(banners, u)
    ensures r.Some? ==> forall k :: k in BannersOf(banners, u) ==> r.value <= k
  {
    var ids := Scan(banners, bound, (b: Banner) => b.userId == u);
    if ids == [] then
      assert forall k :: k in banners && banners[k].userId == u ==> k in ids;
      None
    else
      assert forall k :: k in BannersOf(banners, u) ==> ids[0] <= k by {
        forall k | k in BannersOf(banners, u) ensures ids[0] <= k {
          var i :| 0 <= i < |ids| && ids[i] == k;
        }
      }
      assert ids[0] in BannersOf(banners, u);
      Some(ids[0])
  }

  /** The banner table after deleting the banner `first` found, if it found one. */
  function DropFirst(banners: map<BannerId, Banner>, first: Option<BannerId>): (m: map<BannerId, Banner>)
    ensures first.None? ==> m == banners
    ensures first.Some? ==> m.Keys == banners.Keys - {first.value}
    ensures forall k :: k in m ==> k in banners && m[k] == banners[k]
  {
    match first
    case None => banners
    case Some(f) => banners - {f}
  }

  /**
   * Deleting the first banner of `u` (if any) leaves `u` one banner fewer.
   */
  lemma DropFirstOf(banners: map<BannerId, Banner>, first: Option<BannerId>, u: UserId)
    requires first.None? <==> BannersOf(banners, u) == {}
    requires first.Some? ==> first.value in BannersOf(banners, u)
    ensures BannersOf(DropFirst(banners, first), u) == if first.None? then {} else BannersOf(banners, u) - {first.value}
    ensures |BannersOf(DropFirst(banners, first), u)| == if first.None? then 0 else |BannersOf(banners, u)| - 1
  {
    var m := DropFirst(banners, first);
    if first.Some? {
      assert BannersOf(m, u) == BannersOf(banners, u) - {first.value};
    }
  }

  /** Inserting a banner for `u` under a fresh id adds exactly that id to `u`'s banners. */
  lemma InsertBanner(banners: map<BannerId, Banner>, id: BannerId, b: Banner)
    requires id !in banners
    ensures BannersOf(banners[id := b], b.userId) == BannersOf(banners, b.userId) + {id}
    ensures |BannersOf(banners[id := b], b.userId)| == |BannersOf(banners, b.userId)| + 1
  {
    assert BannersOf(banners[id := b], b.userId) == BannersOf(banners, b.userId) + {id};
  }

  /**
   * Replacing the first banner of `b`'s owner by `b` keeps owners unique;
   * if they were unique, the owner's only banner afterwards is `b`.
   */
  lemma ReplaceKeepsUnique(banners: map<BannerId, Banner>, first: Option<BannerId>, id: BannerId, b: Banner)
    requires UniqueOwners(banners)
    requires first.None? <==> BannersOf(banners, b.userId) == {}
    requires first.Some? ==> first.value in BannersOf(banners, b.userId)
    requires id !in banners
    ensures UniqueOwners(DropFirst(banners, first)[id := b])
  {
    var m := DropFirst(banners, first);
    forall k | k in m ensures m[k].userId != b.userId {
      assert k in banners && m[k] == banners[k];
      if first.Some? {
        assert k != first.value;
        assert banners[first.value].userId == b.userId;
      } else {
        assert k !in BannersOf(banners, b.userId);
        assert banners[k].userId != b.userId;
      }
    }
  }

  /**
   * What `create` does to the banner table, stated on the table alone:
   * the owner of `b` loses their first banner (if any) and gains `b` under
   * the fresh `id`.
   */
  lemma ReplaceEffect(banners: map<BannerId, Banner>, first: Option<BannerId>, id: BannerId, b: Banner)
    requires first.None? <==> BannersOf(banners, b.userId) == {}
    requires first.Some? ==> first.value in BannersOf(banners, b.userId)
    requires id !in banners
    ensures |BannersOf(DropFirst(banners, first)[id := b], b.userId)|
         == if BannersOf(banners, b.userId) == {} then 1 else |BannersOf(banners, b.userId)|
    ensures |BannersOf(banners, b.userId)| <= 1 ==> BannersOf(DropFirst(banners, first)[id := b], b.userId) == {id}
    ensures UniqueOwners(banners) ==> UniqueOwners(DropFirst(banners, first)[id := b])
  {
    var u := b.userId;
    DropFirstOf(banners, first, u);
    var m := DropFirst(banners, first);
    assert id !in m;
    InsertBanner(m, id, b);
    if |BannersOf(banners, u)| <= 1 && first.Some? {
      assert BannersOf(banners, u) == {first.value} by {
        var s := BannersOf(banners, u);
        assert |s - {first.value}| == 0;
      }
    }
    if UniqueOwners(banners) {
      ReplaceKeepsUnique(banners, first, id, b);
    }
  }

  /**
   * `get`: the caller's banner with its image URL, or nothing when the
   * caller is anonymous or has no banner.
   */
  function Get(db: Store, caller: Option<UserId>, resolve: BlobId -> Option<Url>): (r: Option<BannerView>)
    reads db
    requires db.Valid()
    ensures caller.None? ==> r.None?
    ensures caller.Some? ==> (r.None? <==> BannersOf(db.banners, caller.value) == {})
    ensures r.Some? ==>
      && caller.Some?
      && r.value.id in db.banners && r.value.doc == db.banners[r.value.id]
      && r.value.doc.userId == caller.value
      && r.value.imageUrl == resolve(r.value.doc.imageId)
    ensures r.Some? ==> forall k :: k in BannersOf(db.banners, caller.value) ==> r.value.id <= k
  {
    match caller
    case None => None
    case Some(u) =>
      match FirstBannerOf(db.banners, db.nextId, u)
      case None => None
      case Some(k) => Some(View(k, db.banners[k], resolve(db.banners[k].imageId)))
  }

  /**
   * `getPublic`: some banner of the whole table, whoever owns it (the
   * earliest created), or nothing when the table is empty; no identity
   * needed.
   */
  function GetPublic(db: Store, resolve: BlobId -> Option<Url>): (r: Option<BannerView>)
    reads db
    requires db.Valid()
    ensures r.None? <==> db.banners == map[]
    ensures r.Some? ==>
      && r.value.id in db.banners && r.value.doc == db.banners[r.value.id]
      && r.value.imageUrl == resolve(r.value.doc.imageId)
      && forall k :: k in db.banners ==> r.value.id <= k
  {
    var ids := Scan(db.banners, db.nextId, (b: Banner) => true);
    if ids == [] then
      assert forall k :: k in db.banners ==> k in ids;
      None
    else
      var k := ids[0];
      assert forall k' :: k' in db.banners ==> k <= k' by {
        forall k' | k' in db.banners ensures k <= k' {
          var i :| 0 <= i < |ids| && ids[i] == k';
        }
      }
      Some(View(k, db.banners[k], resolve(db.banners[k].imageId)))
  }

  /**
   * `create`: deletes the caller's first banner, if any, then inserts a
   * banner with `imageId` for the caller. Other users' banners, categories
   * and items are untouched. A caller with at most one banner before has
   * exactly the new one afterwards; a caller who somehow had several keeps
   * as many.
   */
  method Create(db: Store, caller: Option<UserId>, imageId: BlobId) returns (r: Result<BannerId>)
    requires db.Valid()
    modifies db
    ensures db.Valid()
    ensures r.Err? <==> caller.None?
    ensures r.Err? ==> r.error == NotLoggedIn && unchanged(db)
    ensures r.Ok? ==>
      && r.value !in old(db.banners) && r.value !in old(db.categories) && r.value !in old(db.items)
      && db.banners == DropFirst(old(db.banners), FirstBannerOf(old(db.banners), old(db.nextId), caller.value))[r.value := Banner(imageId, caller.value)]
      && db.categories == old(db.categories) && db.items == old(db.items)
    ensures r.Ok? ==>
      |BannersOf(db.banners, caller.value)| ==
        if BannersOf(old(db.banners), caller.value) == {} then 1 else |BannersOf(old(db.banners), caller.value)|
    ensures r.Ok? && |BannersOf(old(db.banners), caller.value)| <= 1 ==>
      BannersOf(db.banners, caller.value) == {r.value} && db.banners[r.value].imageId == imageId
    ensures r.Ok? ==> forall k :: k in old(db.banners) && old(db.banners)[k].userId != caller.value ==>
      k in db.banners && db.banners[k] == old(db.banners)[k]
    ensures old(db.ItemsLinked()) ==> db.ItemsLinked()
    ensures old(db.OneBannerPerUser()) ==> db.OneBannerPerUser()
  {
    var auth := RequireUser(caller);
    if auth.Err? {
      return Err(auth.error);
    }
    var u := auth.value;
    ghost var before := db.banners;
    var existing := FirstBannerOf(db.banners, db.nextId, u);
    db.banners := DropFirst(db.banners, existing);
    var id := db.NewId();
    ReplaceEffect(before, existing, id, Banner(imageId, u));
    db.banners := db.banners[id := Banner(imageId, u)];
    r := Ok(id);
  }

  /**
   * `remove`: deletes the caller's first banner if there is one and does
   * nothing otherwise; a caller with at most one banner is left with none.
   */
  method Remove(db: Store, caller: Option<UserId>) returns (r: Result<()>)
    requires db.Valid()
    modifies db
    ensures db.Valid()
    ensures r.Err? <==> caller.None?
    ensures r.Err? ==> r.error == NotLoggedIn && unchanged(db)
    ensures r.Ok? ==>
      && db.banners == DropFirst(old(db.banners), FirstBannerOf(old(db.banners), old(db.nextId), caller.value))
      && db.categories == old(db.categories) && db.items == old(db.items) && db.nextId == old(db.nextId)
    ensures r.Ok? && |BannersOf(old(db.banners), caller.value)| <= 1 ==> BannersOf(db.banners, caller.value) == {}
    ensures r.Ok? ==> forall k :: k in old(db.banners) && old(db.banners)[k].userId != caller.value ==>
      k in db.banners && db.banners[k] == old(db.banners)[k]
    ensures old(db.ItemsLinked()) ==> db.ItemsLinked()
    ensures old(db.OneBannerPerUser()) ==> db.OneBannerPerUser()
  {
    var auth := RequireUser(caller);
    if auth.Err? {
      return Err(auth.error);
    }
    var u := auth.value;
    var existing := FirstBannerOf(db.banners, db.nextId, u);
    DropFirstOf(db.banners, existing, u);
    db.banners := DropFirst(db.banners, existing);
    r := Ok(());
  }
}
