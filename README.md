# Catalog access layer — a Dafny model

This project models the server side of a small storefront built on a Convex backend, together with two pieces of client logic.

Three tables sit on the backend: `categories`, `items` and `banner`. Every document belongs to the user who created it. The handlers in `convex/categories.ts`, `convex/items.ts` and `convex/banner.ts` list, create, update and delete these documents. Each handler first checks who is calling:
- a mutation from a caller who is not signed in fails with "must be logged in";
- a write to a document the caller does not own fails with "not found or unauthorized";
- a failed mutation leaves the database as it was.

Removing a category first removes every item filed under it. Creating a banner replaces the caller's existing banner.

On the client, the category page filters its items by a search query (`src/CategoryPage.tsx`). The image carousel (`src/ImageCarousel.tsx`) is a small state machine over an index into a list of images.

How the model is laid out:
- `common.dfy` (module `Common`): `Option`, `Result`, the error kinds, the sign-in check, image-URL resolution and upload-URL issuance.
- `schema.dfy` (module `Schema`): the three document shapes of `convex/schema.ts` and the declared indexes, with a lookup of an index by table and name.
- `text.dfy` (module `Text`): the JavaScript string operations the code relies on:
  - the string order `<`, taken code point by code point;
  - `trim` and its whitespace set;
  - `toLowerCase` for Basic Latin and the Latin-1 Supplement;
  - `includes`.
- `db.dfy` (module `Db`): the database as a class `Store`.
  - It holds one map per table and a counter that hands out fresh ids. Ascending id is therefore creation order, which is Convex's default order and the order `.first()` picks from.
  - `Scan` is the index walk.
  - `Listing` is the index walk followed by the `map` that turns each row into a `View`: the document with its id and resolved `imageUrl`. All four listings share it.
  - `Linked` (every item points at a category of its owner) and `UniqueOwners` (at most one banner per user) are the invariants that the handlers preserve.
- `categories.dfy`, `items.dfy` and `banner.dfy` (modules `Categories`, `Items`, `Banners`): one member per handler.
  - Queries are functions that read the store.
  - Mutations are methods that modify it.
  - The caller's identity is an `Option<UserId>` parameter.
  - The storage service's `getUrl` is a function parameter `resolve`.
- `category_page.dfy` (module `CategoryPage`): the `filteredItems` memo, with worked examples.
- `image_carousel.dfy` (module `ImageCarousel`): the carousel as a class `Carousel` with its `currentIndex` field, plus the index arithmetic behind the arrows.

Facts about the code that shape the model:
- The schema declares a list `imageIds` on items, but `items.create` takes only a single optional `imageId`, and no handler writes the list.
- `items.update` replaces name, price and quantity and writes description and image only when they are given. Convex's `patch` leaves an absent optional argument alone, so an update never clears an image.
- `items.listByCategory` returns one `imageUrl` per item, resolved from `imageId`. The list `imageUrls` that `src/CategoryPage.tsx:181` reads is never produced, so the carousel on that page is never shown.
- `src/Storefront.tsx:15` calls `items.searchItems`, which `convex/items.ts` does not define.

## Model

| member | source | states |
|---|---|---|
| Common.RequireUser | convex/categories.ts:57-60 | The sign-in check fails with `NotLoggedIn` exactly when there is no caller; otherwise it yields the caller's id. |
| Common.ImageUrl | convex/categories.ts:22-24 | A document without an image has no URL; one with an image gets whatever storage resolves it to. |
| Common.GenerateUploadUrl | convex/categories.ts:119-127 | An upload URL is issued exactly when the caller is signed in, and it is the one storage issued; otherwise `NotLoggedIn`. The same handler appears at items.ts:114-122 and banner.ts:93-101. |
| Schema.LookupIndex | convex/schema.ts:12-30 | An index lookup finds nothing exactly when no declaration has that table and name. When it finds something, those are the fields of a declaration with that table and name. |
| Schema.LookupAppend | convex/schema.ts:12-30 | Declarations added after existing ones never change how an existing index resolves. |
| Schema.CategoryListIndexesUndeclared | convex/categories.ts:15 | As declared in the schema, neither `by_user_and_name` nor `by_name` exists on `categories`. |
| Schema.IntendedIndexesResolve | convex/categories.ts:35 | With the intended declarations added, both category indexes resolve: `by_user_and_name` on (userId, name) and `by_name` on name. |
| Schema.IntendedKeepsDeclared | convex/schema.ts:12-30 | Adding the intended declarations leaves every index that already resolved unchanged. |
| Text.StrLessIrreflexive | convex/categories.ts:16 | The string order behind `.order("asc")` on a name index is irreflexive. |
| Text.StrLessTransitive | convex/categories.ts:16 | That order is transitive. |
| Text.StrLessTotal | convex/categories.ts:16 | That order is total: of two different strings, one comes first. |
| Text.StrLess | convex/categories.ts:16 | The order `.order("asc")` gives a name index: strings compared code point by code point, a proper prefix first. |
| Text.IsWhitespace | src/CategoryPage.tsx:31 | The characters `trim` removes: the ECMAScript WhiteSpace and LineTerminator characters, listed by code point. |
| Text.TrimStart | src/CategoryPage.tsx:31 | `trim` at the front removes exactly a whitespace prefix and stops at a non-whitespace character. |
| Text.TrimEnd | src/CategoryPage.tsx:31 | `trim` at the back removes exactly a whitespace suffix and stops at a non-whitespace character. |
| Text.Trim | src/CategoryPage.tsx:31 | `trim` returns the input with its leading and trailing whitespace cut off: a contiguous slice of the input, with only whitespace before and after it. The slice is empty or starts and ends with a non-whitespace character. |
| Text.TrimEmptyIff | src/CategoryPage.tsx:31 | A query trims to nothing if and only if every character of it is whitespace. |
| Text.TrimKeeps | src/CategoryPage.tsx:31 | A query with one non-whitespace character is not blank. |
| Text.LowerChar | src/CategoryPage.tsx:33 | For one character, `toLowerCase` leaves no capital of A to Z or of the Latin-1 capitals (U+00C0 to U+00DE, except the multiplication sign). It changes a character exactly when it is such a capital, and then moves it 32 code points up to its small letter. |
| Text.LowerCharIdempotent | src/CategoryPage.tsx:33 | Lower-casing twice is lower-casing once. |
| Text.Lower | src/CategoryPage.tsx:33 | Lower-casing keeps the length and maps each character on its own. |
| Text.LowerIdempotent | src/CategoryPage.tsx:33 | Lower-casing a lower-cased string changes nothing. |
| Text.Contains | src/CategoryPage.tsx:36 | `includes`: the query occurs as a contiguous slice of the text at some position. |
| Text.ContainsEmpty | src/CategoryPage.tsx:36 | `includes` of the empty string is true for every text. |
| Text.ContainsNeedsRoom | src/CategoryPage.tsx:36 | `includes` of a query longer than the text is false. |
| Db.Scan | convex/items.ts:8-11 | An index walk returns exactly the documents below the id bound that satisfy the index condition, in strictly ascending (creation) order. |
| Db.Listing | convex/items.ts:8-18 | An index scan followed by the URL-attaching `map` returns exactly the matching rows in creation order. Each row is the stored document with its id and the URL of its image. The same shape serves categories.ts:13-26, categories.ts:33-46 and items.ts:30-40. |
| Db.ViewOf | convex/categories.ts:20-25 | A listed row is the stored document with its id. Its `imageUrl` is null when the row names no image, and otherwise whatever storage resolves the image to. Categories and items resolve their single `imageId` this way (items.ts:14-17). The `imageIds` list passes through as stored. |
| Db.OwnsCategory | convex/items.ts:60-63 | The ownership test before writing under a category: the category exists and its `userId` is the caller. The same test is at categories.ts:82-85 and categories.ts:100-103. |
| Db.OwnsItem | convex/items.ts:87-90 | The ownership test before changing an item: the item exists and its `userId` is the caller. The same test is at items.ts:105-108. |
| Db.Store.constructor | convex/schema.ts:5-31 | A new database has three empty tables and satisfies every invariant. |
| Db.Store.NewId | convex/categories.ts:62 | An insert receives an id no table holds. The counter advances past it, and the store stays valid. |
| Categories.BeforeIrreflexive | convex/categories.ts:15-16 | The listing order (name, then creation) never puts a category before itself. |
| Categories.BeforeTransitive | convex/categories.ts:15-16 | The listing order is transitive. |
| Categories.BeforeTotal | convex/categories.ts:15-16 | Any two different categories are ordered one way or the other. |
| Categories.Insert | convex/categories.ts:15-17 | Inserting a row into a sorted listing yields a sorted listing with exactly one more copy of that row. |
| Categories.SortByName | convex/categories.ts:15-17 | The name order is a sorted permutation of its input. |
| Categories.SameMembers | convex/categories.ts:13-17 | Putting the scanned rows in name order shows exactly the same rows. |
| Categories.List | convex/categories.ts:5-28 | An anonymous caller gets an empty list. A signed-in caller gets exactly their own categories, each with its image URL, sorted by name and then creation. |
| Categories.ListPublic | convex/categories.ts:30-48 | Every category of every user appears, each with its image URL, sorted by name and then creation. |
| Categories.ListedOnce | convex/categories.ts:5-48 | No category appears twice in a listing. |
| Categories.Guard | convex/categories.ts:77-85 | The write check passes exactly for a signed-in owner of an existing category. It fails with `NotLoggedIn` for an anonymous caller and with `CategoryNotFoundOrUnauthorized` for anyone else. |
| Categories.Create | convex/categories.ts:50-67 | It fails with `NotLoggedIn` exactly when anonymous, and the store is then unchanged. On success, a fresh category owned by the caller is stored with the given fields and nothing else changes. Both invariants are preserved. |
| Categories.Update | convex/categories.ts:69-90 | Same failure rules as `Guard`, with the store then unchanged. On success the name is replaced, and description and image only when given. Owner and banner are kept, other documents do not change, and both invariants are preserved. |
| Categories.ItemsOf | convex/categories.ts:106-109 | The cascade's query lists exactly the items filed under the category. |
| Categories.WithoutCategory | convex/categories.ts:105-113 | After the cascade, exactly the items of other categories remain, unchanged. |
| Categories.DeletedStep | convex/categories.ts:111-113 | Deleting one more id of the cascade is one more removal from the table. |
| Categories.DeletedAll | convex/categories.ts:105-113 | Deleting every listed id removes exactly the category's items. |
| Categories.CascadeKeepsLinked | convex/categories.ts:105-115 | Removing a category together with its items keeps every remaining item linked to a category of its owner. |
| Categories.DeleteItemsOf | convex/categories.ts:105-113 | The delete loop leaves exactly the items of other categories and touches no other table. |
| Categories.Remove | convex/categories.ts:92-117 | Same failure rules as `Guard`, with the store then unchanged. On success the category and all its items, whoever owns them, are gone; everything else is unchanged and both invariants are preserved. |
| Items.ListByCategory | convex/items.ts:5-20 | Exactly the items of the category, in creation order, with their image URLs. No sign-in is needed. |
| Items.ListByUser | convex/items.ts:22-42 | An anonymous caller gets an empty list. A signed-in caller gets exactly their own items, in creation order, with their image URLs. |
| Items.Guard | convex/items.ts:82-90 | The write check passes exactly for a signed-in owner of an existing item. It fails with `NotLoggedIn` or `ItemNotFoundOrUnauthorized` otherwise. |
| Items.Create | convex/items.ts:44-70 | It fails with `NotLoggedIn` when anonymous, and with `CategoryNotFoundOrUnauthorized` unless the caller owns the target category; the store is then unchanged. On success a fresh item owned by the caller is stored with the given fields and no `imageIds`. Both invariants are preserved. |
| Items.Update | convex/items.ts:72-95 | Same failure rules as `Items.Guard`. On success name, price and quantity are replaced, and description and image only when given. The gallery, category and owner are kept, and both invariants are preserved. |
| Items.Remove | convex/items.ts:97-112 | Same failure rules as `Items.Guard`. On success exactly that item is gone, and both invariants are preserved. |
| Banners.FirstBannerOf | convex/banner.ts:13-16 | `.first()` on the owner index finds nothing exactly when the user has no banner. Otherwise it finds the user's earliest banner. |
| Banners.DropFirst | convex/banner.ts:63-65 | Deleting the found banner removes exactly that one document and nothing when none was found. |
| Banners.DropFirstOf | convex/banner.ts:57-65 | After that delete the user has one banner fewer, or still none. |
| Banners.InsertBanner | convex/banner.ts:67-70 | Inserting a banner gives its owner exactly one more banner. |
| Banners.ReplaceKeepsUnique | convex/banner.ts:57-70 | Delete-then-insert keeps every user at most one banner. |
| Banners.ReplaceEffect | convex/banner.ts:57-70 | Delete-then-insert leaves the user's banner count as it was, or one if they had none. A user who had at most one banner ends with exactly the new one. Uniqueness is kept. |
| Banners.Get | convex/banner.ts:5-28 | An anonymous caller gets nothing. A signed-in caller gets nothing exactly when they have no banner. Otherwise they get their earliest banner (smallest id among their banners) with its URL. |
| Banners.GetPublic | convex/banner.ts:30-45 | Nothing exactly when the table is empty; otherwise the earliest banner of any user, with its URL. |
| Banners.Create | convex/banner.ts:47-72 | It fails with `NotLoggedIn` exactly when anonymous, and the store is then unchanged. On success the caller's earliest banner is deleted and a fresh one inserted, so a caller with at most one banner ends with exactly the new one. Other users' banners are untouched and both invariants are preserved. |
| Banners.Remove | convex/banner.ts:74-91 | It fails with `NotLoggedIn` exactly when anonymous. On success the caller's earliest banner, if any, is deleted, so a caller with at most one banner ends with none. Other users' banners are untouched and both invariants are preserved. |
| CategoryPage.Keep | src/CategoryPage.tsx:34-38 | `filter` keeps, in order, exactly the items that match, each as often as it occurred. |
| CategoryPage.Matches | src/CategoryPage.tsx:35-37 | The filter's test: the lowered name contains the lowered query, or a non-empty description does. An empty description is falsy and is skipped. |
| CategoryPage.FilteredItems | src/CategoryPage.tsx:30-39 | A blank query returns the list as it is. Any other query keeps, in order, exactly the items whose lower-cased name or non-empty description contains the lower-cased, untrimmed query. |
| CategoryPage.KeepStep | src/CategoryPage.tsx:34-38 | Filtering a list is filtering its head, then its tail. |
| CategoryPage.SubsequenceRefl | src/CategoryPage.tsx:31 | A list is an order-keeping sublist of itself, which is what a blank query returns. |
| CategoryPage.KeepIdempotent | src/CategoryPage.tsx:34-38 | Filtering twice by the same query is filtering once. |
| CategoryPage.FilteredItemsIdempotent | src/CategoryPage.tsx:30-39 | Searching the search result again with the same query changes nothing. |
| CategoryPage.NameOnlyWithoutDescription | src/CategoryPage.tsx:36-37 | An item without a description matches exactly when its name contains the query. |
| CategoryPage.EmptyDescriptionIgnored | src/CategoryPage.tsx:37 | An item whose description is the empty string is found by its name alone, as one without a description is. |
| CategoryPage.QueriesNotBlank | src/CategoryPage.tsx:31 | "widget" and " widget" are not blank queries. |
| CategoryPage.LowerExamples | src/CategoryPage.tsx:33-36 | Sample names and queries lower-case as JavaScript does. |
| CategoryPage.BlueWidgetMatches | src/CategoryPage.tsx:36 | "Blue Widget" matches the query "widget". |
| CategoryPage.GadgetMisses | src/CategoryPage.tsx:36-37 | "Gadget" does not match "widget". |
| CategoryPage.WidgetExample | src/CategoryPage.tsx:30-39 | Searching ["Blue Widget", "Gadget"] for "widget" yields ["Blue Widget"]. |
| CategoryPage.SpaceTakesPart | src/CategoryPage.tsx:33-36 | The query is lower-cased but not trimmed, so "Widget" matches "widget" but not " widget". |
| CategoryPage.UntrimmedQueryExample | src/CategoryPage.tsx:31-38 | A leading space makes a non-blank query that finds nothing, although the trimmed query would match. |
| ImageCarousel.Next | src/ImageCarousel.tsx:32-36 | The next arrow moves to index (i + 1) mod n, which stays in range. |
| ImageCarousel.Previous | src/ImageCarousel.tsx:26-30 | The previous arrow moves to index (i + n − 1) mod n, which stays in range. |
| ImageCarousel.NextPreviousInverse | src/ImageCarousel.tsx:26-36 | Next then previous, or previous then next, returns to the same image. |
| ImageCarousel.NextTimes | src/ImageCarousel.tsx:32-36 | Any number of next presses stays in range. |
| ImageCarousel.NextTimesShifts | src/ImageCarousel.tsx:32-36 | k presses of next move from i to (i + k) mod n. |
| ImageCarousel.NextOfRemainder | src/ImageCarousel.tsx:32-36 | One press of next from i mod n lands on (i + 1) mod n. |
| ImageCarousel.FullCycle | src/ImageCarousel.tsx:32-36 | n presses of next return to the starting image. |
| ImageCarousel.Carousel.constructor | src/ImageCarousel.tsx:10 | A carousel starts at the first image. |
| ImageCarousel.Carousel.GoToNext | src/ImageCarousel.tsx:32-36 | The next arrow sets the index to `Next` of the old one, and it stays in range. |
| ImageCarousel.Carousel.GoToPrevious | src/ImageCarousel.tsx:26-30 | The previous arrow sets the index to `Previous` of the old one, and it stays in range. |
| ImageCarousel.Carousel.SelectDot | src/ImageCarousel.tsx:64-76 | The dot at a given position selects that image. |
| ImageCarousel.Carousel.Render | src/ImageCarousel.tsx:12-82 | No images render nothing, and one image renders just that image. Otherwise the image at `currentIndex` renders with the counter `currentIndex + 1` of `images.length`, and the counter lies within 1..total. |

## Left out

- The React components are left out: rendering, styling, routing, forms, modals, toasts and the other client files (`App.tsx`, `Dashboard.tsx`, `Storefront.tsx`, the forms). Only the filter and the carousel state carry logic.
- Authentication internals (`getAuthUserId`, the auth tables) are left out. The caller's identity is a parameter.
- File storage is not part of this model. `storage.getUrl` is the uninterpreted parameter `resolve`, and `storage.generateUploadUrl` is the parameter `issued`. Stored files are never deleted by the handlers, and the model does not track them either.
- Concurrency and transactions are left out. Each handler runs as one atomic step, which is what Convex mutations guarantee.
- Error messages are reduced to three error kinds. The message text is not modelled.
- Field validation by `v.*` validators is carried by the Dafny types: ids are `nat`, and `price` and `quantity` are `real`. Floating-point rounding and non-finite numbers are not modelled.
- Reading a document id of another table (a validator rejection) is not modelled. All tables share one id space, and a lookup of a foreign id finds nothing, which is the not-found path.
- Convex's default order and `.first()` are modelled as ascending id. Ids come from one counter, so this is creation order.
- Text.LowerChar: `toLowerCase` is modelled only for Basic Latin and the Latin-1 Supplement. Other scripts, and the code points whose lower case differs in length, are left as they are.
- Text.StrLess compares code points. JavaScript's `<` compares UTF-16 code units, so the two orders differ only between characters above U+FFFF and characters in U+E000 to U+FFFF.
- The `imageIds` gallery field is stored and kept by updates, but no handler writes it, and no query resolves it.
- `items.searchItems` (called at `src/Storefront.tsx:15`) is not defined by the backend, so there is nothing to model.
- The carousel's image list is fixed for the component's lifetime. React re-mounting with new images and the `alt` text are not modelled. The arrows and dots exist only when there are at least two images, so their methods require that.

## Findings

| source | as written | input that shows it | evidently intended | confidence | as-written member | corrected member |
|---|---|---|---|---|---|---|
| convex/categories.ts:15 and :35 against convex/schema.ts:6-12 | `list` queries index `by_user_and_name` and `listPublic` queries index `by_name`, but the schema declares only `by_user` on `categories` | any call of `categories.list` by a signed-in user, or any call of `categories.listPublic`: the index lookup finds no declaration | declare `by_user_and_name` on (userId, name) and `by_name` on name, so both listings come back sorted by name | not executed | Schema.CategoryListIndexesUndeclared | Schema.IntendedIndexesResolve |

The listings `Categories.List` and `Categories.ListPublic` model the intended behaviour: rows in name order, ties broken by creation order.
