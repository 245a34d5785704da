/**
 * Shared vocabulary of the catalog backend: optional values, the errors the
 * handlers throw, and the identity check every handler starts with.
 */
module Common {

  /** A value that may be absent (`undefined` / `null` in the backend). */
  datatype Option<+T> = None | Some(value: T)

  /** The three error messages the handlers throw. */
  datatype Error =
    | NotLoggedIn                     // "Must be logged in[ to create ...]"
    | CategoryNotFoundOrUnauthorized  // "Category not found or unauthorized"
    | ItemNotFoundOrUnauthorized      // "Item not found or unauthorized"

  /** Outcome of a mutation: a value, or the error it throws. */
  datatype Result<+T> = Ok(value: T) | Err(error: Error)

  /** Identity of a signed-in user, as the authentication provider reports it. */
  type UserId = string

  /** Handle of a blob in the file store. */
  type BlobId = string

  /** A retrievable URL issued by the file store. */
  type Url = string

  /**
   * The first step of every mutation: the caller must be signed in.
   * Anonymous callers get `NotLoggedIn`; signed-in callers get their own id.
   */
  function RequireUser(caller: Option<UserId>): (r: Result<UserId>)
    ensures r.Err? <==> caller.None?
    ensures r.Err? ==> r.error == NotLoggedIn
    ensures r.Ok? ==> r.value == caller.value
  {
    match caller
    case None => Err(NotLoggedIn)
    case Some(u) => Ok(u)
  }

  /**
   * Resolution of an optional image handle: `null` when there is no handle,
   * otherwise whatever the file store answers (itself `null` for a blob it
   * cannot serve).
   */
  function ImageUrl(imageId: Option<BlobId>, resolve: BlobId -> Option<Url>): (r: Option<Url>)
    ensures imageId.None? ==> r.None?
    ensures imageId.Some? ==> r == resolve(imageId.value)
  {
    match imageId
    case None => None
    case Some(b) => resolve(b)
  }

  /**
   * `generateUploadUrl`, identical in the category, item and banner
   * handlers: only a signed-in caller receives the upload URL that the file
   * store issues (`issued`); the tables are not touched.
   */
  function GenerateUploadUrl(caller: Option<UserId>, issued: Url): (r: Result<Url>)
    ensures r.Ok? <==> caller.Some?
    ensures r.Ok? ==> r.value == issued
    ensures r.Err? ==> r.error == NotLoggedIn
  {
    match RequireUser(caller)
    case Err(e) => Err(e)
    case Ok(_) => Ok(issued)
  }
}
