/**
 * The three application tables of the catalog backend (categories, items,
 * banner): the shape of one row of each, and the secondary indexes the
 * schema declares for them.
 */
module Schema {
  import opened Common

  /**
   * Row identifiers. The document store issues them; in this model they come
   * from one counter, so ids are unique across tables and ascending ids are
   * creation order.
   */
  type Id = nat
  type CategoryId = Id
  type ItemId = Id
  type BannerId = Id

  /**
   * A JavaScript number (`v.number()`). Prices and quantities are stored and
   * returned as given; nothing in the backend computes with them or checks
   * their sign.
   */
  type Number = real

  /** One row of `categories`: every category belongs to the user in `userId`. */
  datatype Category = Category(
    name: string,
    description: Option<string>,
    imageId: Option<BlobId>,
    bannerId: Option<BlobId>,
    userId: UserId)

  /**
   * One row of `items`. `imageId` is the legacy single image and `imageIds`
   * the list form; a row may hold both at once. `categoryId` is typed as a
   * category id, which the schema alone does not require to exist.
   */
  datatype Item = Item(
    name: string,
    description: Option<string>,
    price: Number,
    quantity: Number,
    imageId: Option<BlobId>,
    imageIds: Option<seq<BlobId>>,
    categoryId: CategoryId,
    userId: UserId)

  /** One row of `banner`: the image is required. */
  datatype Banner = Banner(imageId: BlobId, userId: UserId)

  /** A secondary index: its table, its name and the fields it orders by. */
  datatype IndexDecl = IndexDecl(table: string, name: string, fields: seq<string>)

  /** The indexes the schema declares. */
  const DeclaredIndexes: seq<IndexDecl> := [
    IndexDecl("categories", "by_user", ["userId"]),
    IndexDecl("items", "by_category", ["categoryId"]),
    IndexDecl("items", "by_user", ["userId"]),
    IndexDecl("banner", "by_user", ["userId"])
  ]

  /**
   * The indexes the category listings need: `by_user_and_name` on
   * (userId, name) and `by_name` on name, beside the declared ones.
   */
  const IntendedIndexes: seq<IndexDecl> := DeclaredIndexes + [
    IndexDecl("categories", "by_user_and_name", ["userId", "name"]),
    IndexDecl("categories", "by_name", ["name"])
  ]

  /**
   * What `withIndex(name)` on `table` resolves to: the fields of the first
   * declaration of that index, or nothing when the schema does not declare
   * it (the store then rejects the query).
   */
  function LookupIndex(decls: seq<IndexDecl>, table: string, name: string): (r: Option<seq<string>>)
    ensures r.None? <==> forall i :: 0 <= i < |decls| ==> !(decls[i].table == table && decls[i].name == name)
    ensures r.Some? ==> exists i :: 0 <= i < |decls| && decls[i] == IndexDecl(table, name, r.value)
  {
    if decls == [] then None
    else if decls[0].table == table && decls[0].name == name then Some(decls[0].fields)
    else
      var r := LookupIndex(decls[1..], table, name);
      assert forall i :: 1 <= i < |decls| ==> decls[i] == decls[1..][i - 1];
      r
  }

  /** Adding declarations after existing ones never changes how those resolve. */
  lemma {:induction false} LookupAppend(a: seq<IndexDecl>, b: seq<IndexDecl>, table: string, name: string)
    ensures LookupIndex(a + b, table, name)
         == if LookupIndex(a, table, name).Some? then LookupIndex(a, table, name) else LookupIndex(b, table, name)
  {
    if a != [] {
      assert (a + b)[1..] == a[1..] + b;
      LookupAppend(a[1..], b, table, name);
    } else {
      assert a + b == b;
    }
  }

  /** As declared, neither index the category listings use exists. */
  lemma CategoryListIndexesUndeclared()
    ensures LookupIndex(DeclaredIndexes, "categories", "by_user_and_name").None?
    ensures LookupIndex(DeclaredIndexes, "categories", "by_name").None?
  {
  }

  /** With the intended declarations, both category indexes resolve, each ordering by name after its equality fields. */
  lemma IntendedIndexesResolve()
    ensures LookupIndex(IntendedIndexes, "categories", "by_user_and_name") == Some(["userId", "name"])
    ensures LookupIndex(IntendedIndexes, "categories", "by_name") == Some(["name"])
  {
    var extra := IntendedIndexes[|DeclaredIndexes|..];
    assert IntendedIndexes == DeclaredIndexes + extra;
    LookupAppend(DeclaredIndexes, extra, "categories", "by_user_and_name");
    LookupAppend(DeclaredIndexes, extra, "categories", "by_name");
  }

  /** The added declarations leave every index that already resolved as it was. */
  lemma IntendedKeepsDeclared(table: string, name: string)
    requires LookupIndex(DeclaredIndexes, table, name).Some?
    ensures LookupIndex(IntendedIndexes, table, name) == LookupIndex(DeclaredIndexes, table, name)
  {
    var extra := IntendedIndexes[|DeclaredIndexes|..];
    assert IntendedIndexes == DeclaredIndexes + extra;
    LookupAppend(DeclaredIndexes, extra, table, name);
  }
}
