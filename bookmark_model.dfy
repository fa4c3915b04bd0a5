/**
 * The Bookmark schema: the record every handler reads and writes, the
 * defaults the schema fills in when a new document is built, and the
 * required-field check the store runs before it saves a document.
 */
module BookmarkModel {
  import opened Wrappers
  import opened Validation

  /** Identifier of a stored bookmark; the store hands them out and never reuses one. */
  type BookmarkId = nat
  /** Identifier of a user (the authenticated principal). */
  newtype UserId = n: int | 0 <= n
  /** Identifier of a category document. */
  newtype CategoryId = n: int | 0 <= n

  /** A stored bookmark document (timestamps left out). */
  datatype Bookmark = Bookmark(
    user: UserId,
    category: CategoryId,
    title: string,
    url: string,
    notes: Option<string>,
    filePath: Option<string>,
    shareCode: Option<string>,
    isPublic: bool,
    originalBookmark: Option<BookmarkId>,
    clonedFrom: Option<BookmarkId>)

  /**
   * A document as a handler builds it with `new Bookmark({...})`, before the
   * schema applies its defaults and before validation: any field may be missing.
   */
  datatype Draft = Draft(
    user: Option<UserId>,
    category: Option<CategoryId>,
    title: Option<string>,
    url: Option<string>,
    notes: Option<string>,
    filePath: Option<string>,
    originalBookmark: Option<BookmarkId>,
    clonedFrom: Option<BookmarkId>)

  /**
   * A required string is present and not the empty string, which for an
   * optional string is exactly JavaScript truthiness.
   */
  predicate RequiredString(s: Option<string>) {
    Truthy(s)
  }

  /**
   * The required-field check as the schema is written: `category` and `title`
   * are required; `user` carries the misspelt option `nnrequired`, so it is not.
   */
  predicate PassesRequiredAsWritten(d: Draft) {
    d.category.Some? && RequiredString(d.title)
  }

  /** The required-field check the schema evidently intends: `user` required as well. */
  predicate PassesRequired(d: Draft) {
    d.user.Some? && PassesRequiredAsWritten(d)
  }

  /** The misspelt option lets a document without an owner through validation. */
  lemma UserNotRequiredAsWritten(c: CategoryId, title: string)
    requires title != ""
    ensures var d := Draft(None, Some(c), Some(title), None, None, None, None, None);
            PassesRequiredAsWritten(d) && !PassesRequired(d)
  {
  }

  /** Under the intended check, a valid draft names its owner, category and a non-empty title. */
  lemma PassesRequiredMeansOwned(d: Draft)
    ensures PassesRequired(d) <==> d.user.Some? && d.category.Some? && d.title.Some? && d.title.value != ""
  {
  }

  /**
   * The saved document for a draft: `url` defaults to the empty string,
   * `isPublic` to false, and `shareCode` is absent (the sparse index skips it).
   */
  function Instantiate(d: Draft): (b: Bookmark)
    requires PassesRequired(d)
    ensures b.user == d.user.value && b.category == d.category.value && b.title == d.title.value
    ensures b.url == (if d.url.Some? then d.url.value else "")
    ensures b.notes == d.notes && b.filePath == d.filePath
    ensures !b.isPublic && b.shareCode.None?
    ensures b.originalBookmark == d.originalBookmark && b.clonedFrom == d.clonedFrom
  {
    Bookmark(d.user.value, d.category.value, d.title.value, d.url.GetOr(""), d.notes,
             d.filePath, None, false, d.originalBookmark, d.clonedFrom)
  }

  /** The fields of a stored document, seen as a draft for re-validation on save. */
  function AsDraft(b: Bookmark): (d: Draft)
    ensures d.title == Some(b.title) && d.user == Some(b.user) && d.category == Some(b.category)
  {
    Draft(Some(b.user), Some(b.category), Some(b.title), Some(b.url), b.notes, b.filePath,
          b.originalBookmark, b.clonedFrom)
  }

  /** Whether saving a stored document again passes the required-field check. */
  predicate SchemaValid(b: Bookmark) {
    PassesRequired(AsDraft(b))
  }

  /** Re-validating a stored document only ever rejects it for an empty title. */
  lemma SchemaValidIffTitle(b: Bookmark)
    ensures SchemaValid(b) <==> b.title != ""
  {
  }

  /** A draft that passes validation and is saved, then re-validated, passes again. */
  lemma InstantiateIsSchemaValid(d: Draft)
    requires PassesRequired(d)
    ensures SchemaValid(Instantiate(d))
  {
  }

  /** The unique-sparse index on `shareCode`: no two documents carry the same code. */
  ghost predicate ShareCodesUnique(t: map<BookmarkId, Bookmark>) {
    forall a, b :: a in t && b in t && a != b && t[a].shareCode.Some? ==> t[a].shareCode != t[b].shareCode
  }

  /**
   * The sparse index places no constraint on documents without a code: storing
   * one, new or in place of another, never conflicts with any document.
   */
  lemma SparseIndexAllowsManyWithoutCode(t: map<BookmarkId, Bookmark>, id: BookmarkId, b: Bookmark)
    requires ShareCodesUnique(t) && b.shareCode.None?
    ensures ShareCodesUnique(t[id := b])
  {
  }
}
