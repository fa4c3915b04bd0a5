/**
 * The bookmark request handlers over an in-memory bookmark table.
 *
 * The document store is a map from bookmark id to Bookmark, held by a
 * BookmarkStore object whose methods are the handlers. Each handler checks
 * its inputs in the order the controller does and either answers with an
 * error response (status code and message) or changes the table. The
 * authenticated caller is a parameter; the random number behind a share code
 * is a parameter too.
 */
module BookmarkController {
  import opened Wrappers
  import opened BookmarkModel
  import opened Validation

  // ---------------------------------------------------------------------------
  // Responses
  // ---------------------------------------------------------------------------

  /** An error response: HTTP status and the `msg` the client sees. */
  datatype Error = Error(status: nat, msg: string)

  const InvalidUrlFormat := Error(400, "Invalid URL format")
  const UrlOrFileRequired := Error(400, "Either URL or file must be provided")
  const NotFound := Error(404, "Bookmark not found")
  const NotAuthorized := Error(401, "Not authorized")
  const ShareCodeRequired := Error(400, "Share code is required")
  const CategoryRequired := Error(400, "Category is required")
  const UnknownShareCode := Error(404, "Invalid share code or bookmark not found")
  const AlreadyCloned := Error(400, "You have already cloned this bookmark")
  const PreviewNotFound := Error(404, "Bookmark not found or not public")
  /** Any failure raised by the store or at run time: logged, and answered generically. */
  const ServerError := Error(500, "Server Error")

  /** The body fields of a create or update request; `None` is a field the body leaves out. */
  datatype BookmarkFields = BookmarkFields(
    title: Option<string>,
    url: Option<string>,
    notes: Option<string>,
    category: Option<CategoryId>,
    filePath: Option<string>)

  /** The body of a clone request. */
  datatype CloneRequest = CloneRequest(shareCode: Option<string>, categoryId: Option<CategoryId>)

  /** What the public fetch selects: the id and `title`, `notes`, `url`, nothing else. */
  datatype PublicBookmark = PublicBookmark(id: BookmarkId, title: string, notes: Option<string>, url: string)

  /** The share preview: names of the category and owner, and whether a file is attached. */
  datatype SharePreview = SharePreview(
    title: string,
    notes: Option<string>,
    url: string,
    category: string,
    createdBy: string,
    hasFile: bool)

  // ---------------------------------------------------------------------------
  // Input checks of create and update
  // ---------------------------------------------------------------------------

  /** The URL format check: it applies only to a url that is present and not blank. */
  function CheckUrlFormat(url: Option<string>): (e: Option<Error>)
    ensures e.Some? <==> url.Some? && !IsBlank(url.value) && !MatchesUrlPattern(url.value)
    ensures e.Some? ==> e.value == InvalidUrlFormat
  {
    if Truthy(url) && Trim(url.value) != "" && !UrlRegexTest(url.value) then Some(InvalidUrlFormat)
    else None
  }

  /** The checks create runs before it builds a document: the URL format, then url-or-file. */
  function CheckCreate(req: BookmarkFields): (e: Option<Error>)
    ensures CheckUrlFormat(req.url).Some? ==> e == Some(InvalidUrlFormat)
    ensures CheckUrlFormat(req.url).None? && IsBlank(req.url.GetOr("")) && IsBlank(req.filePath.GetOr(""))
            ==> e == Some(UrlOrFileRequired)
    ensures e.None? <==>
              (IsBlank(req.url.GetOr("")) || MatchesUrlPattern(req.url.value))
              && (!IsBlank(req.url.GetOr("")) || !IsBlank(req.filePath.GetOr("")))
  {
    if CheckUrlFormat(req.url).Some? then CheckUrlFormat(req.url)
    else if BlankField(req.url) && BlankField(req.filePath) then Some(UrlOrFileRequired)
    else None
  }

  /** `url || ''`: the url when it is truthy, else the empty string. */
  function UrlOrEmpty(url: Option<string>): (u: string)
    ensures url.None? || url.value == "" ==> u == ""
    ensures url.Some? ==> u == url.value
  {
    if Truthy(url) then url.value else ""
  }

  /** The document create builds: the request's fields, `url || ''`, and the caller as owner. */
  function CreateDraft(caller: UserId, req: BookmarkFields): (d: Draft)
    ensures d.user == Some(caller) && d.url == Some(UrlOrEmpty(req.url))
    ensures PassesRequired(d) <==> RequiredString(req.title) && req.category.Some?
  {
    Draft(Some(caller), req.category, req.title, Some(UrlOrEmpty(req.url)), req.notes, req.filePath, None, None)
  }

  /**
   * The partial update `$set: { title, url, notes, category, filePath }`:
   * the fields the body gives replace the stored ones; nothing else changes.
   */
  function ApplyUpdate(b: Bookmark, req: BookmarkFields): (n: Bookmark)
    ensures n.user == b.user && n.shareCode == b.shareCode && n.isPublic == b.isPublic
    ensures n.clonedFrom == b.clonedFrom && n.originalBookmark == b.originalBookmark
    ensures req.title.Some? ==> n.title == req.title.value
    ensures req.url.Some? ==> n.url == req.url.value
    ensures req.notes.Some? ==> n.notes == req.notes
    ensures req.category.Some? ==> n.category == req.category.value
    ensures req.filePath.Some? ==> n.filePath == req.filePath
    ensures req.title.None? ==> n.title == b.title
    ensures req.url.None? ==> n.url == b.url
    ensures req.notes.None? ==> n.notes == b.notes
    ensures req.category.None? ==> n.category == b.category
    ensures req.filePath.None? ==> n.filePath == b.filePath
    ensures req == BookmarkFields(None, None, None, None, None) ==> n == b
  {
    b.(title := req.title.GetOr(b.title),
       url := req.url.GetOr(b.url),
       notes := if req.notes.Some? then req.notes else b.notes,
       category := req.category.GetOr(b.category),
       filePath := if req.filePath.Some? then req.filePath else b.filePath)
  }

  // ---------------------------------------------------------------------------
  // Share codes and clones
  // ---------------------------------------------------------------------------

  /** `findOne({ shareCode })`: the one document carrying `code`, if any. */
  function FindByShareCode(t: map<BookmarkId, Bookmark>, code: string): (r: Option<BookmarkId>)
    requires ShareCodesUnique(t)
    ensures r.Some? ==> r.value in t && t[r.value].shareCode == Some(code)
    ensures r.None? ==> forall id :: id in t ==> t[id].shareCode != Some(code)
  {
    if exists id :: id in t && t[id].shareCode == Some(code) then
      var id :| id in t && t[id].shareCode == Some(code);
      Some(id)
    else
      None
  }

  /** The lookup finds whichever document holds the code, since at most one does. */
  lemma FindByShareCodeFinds(t: map<BookmarkId, Bookmark>, code: string, id: BookmarkId)
    requires ShareCodesUnique(t) && id in t && t[id].shareCode == Some(code)
    ensures FindByShareCode(t, code) == Some(id)
  {
  }

  /** Another document than `id` already holds `code`: the unique index refuses the save. */
  predicate CodeTakenByOther(t: map<BookmarkId, Bookmark>, id: BookmarkId, code: string) {
    exists other :: other in t && other != id && t[other].shareCode == Some(code)
  }

  /** `findOne({ user, clonedFrom: src })` finds something: the user already cloned `src`. */
  predicate HasCloneOf(t: map<BookmarkId, Bookmark>, user: UserId, src: BookmarkId) {
    exists id :: id in t && t[id].user == user && t[id].clonedFrom == Some(src)
  }

  /** The root of the lineage a clone of `src` joins: `src.originalBookmark || src._id`. */
  function LineageRoot(src: Bookmark, srcId: BookmarkId): (root: BookmarkId)
    ensures src.originalBookmark.Some? ==> root == src.originalBookmark.value
    ensures src.originalBookmark.None? ==> root == srcId
  {
    src.originalBookmark.GetOr(srcId)
  }

  /**
   * The document a clone builds from its source: the title with the suffix
   * " (Cloned)", url, notes and file copied, the requested category, the
   * caller as owner, the source as `clonedFrom` and the source's lineage root
   * as `originalBookmark`. It always passes validation.
   */
  function CloneRecord(src: Bookmark, srcId: BookmarkId, caller: UserId, category: CategoryId): (b: Bookmark)
    ensures b.title == src.title + " (Cloned)"
    ensures b.url == src.url && b.notes == src.notes && b.filePath == src.filePath
    ensures b.category == category && b.user == caller
    ensures b.clonedFrom == Some(srcId) && b.originalBookmark == Some(LineageRoot(src, srcId))
    ensures b.shareCode.None? && !b.isPublic
    ensures SchemaValid(b)
  {
    var d := Draft(Some(caller), Some(category), Some(src.title + " (Cloned)"), Some(src.url), src.notes,
                   src.filePath, Some(LineageRoot(src, srcId)), Some(srcId));
    Instantiate(d)
  }

  // ---------------------------------------------------------------------------
  // Projections
  // ---------------------------------------------------------------------------

  /** `select('title notes url')`: the fields the public fetch exposes. */
  function PublicView(id: BookmarkId, b: Bookmark): (v: PublicBookmark)
    ensures v.id == id && v.title == b.title && v.notes == b.notes && v.url == b.url
  {
    PublicBookmark(id, b.title, b.notes, b.url)
  }

  /** The preview body: `hasFile` is `!!filePath`, the path itself is never exposed. */
  function Preview(b: Bookmark, categoryName: string, ownerName: string): (p: SharePreview)
    ensures p.hasFile <==> b.filePath.Some? && b.filePath.value != ""
    ensures p.title == b.title && p.notes == b.notes && p.url == b.url
    ensures p.category == categoryName && p.createdBy == ownerName
  {
    SharePreview(b.title, b.notes, b.url, categoryName, ownerName, Truthy(b.filePath))
  }

  // ---------------------------------------------------------------------------
  // The table invariant
  // ---------------------------------------------------------------------------

  /** Every id in use, and every id a document refers to, is below `next`. */
  ghost predicate IdsBelow(t: map<BookmarkId, Bookmark>, next: BookmarkId) {
    forall id :: id in t ==>
      && id < next
      && (t[id].clonedFrom.Some? ==> t[id].clonedFrom.value < next)
      && (t[id].originalBookmark.Some? ==> t[id].originalBookmark.value < next)
  }

  /** No user holds two clones of the same source. */
  ghost predicate OneClonePerUser(t: map<BookmarkId, Bookmark>) {
    forall a, b :: a in t && b in t && a != b && t[a].clonedFrom.Some? && t[a].user == t[b].user
      ==> t[a].clonedFrom != t[b].clonedFrom
  }

  /** Lineages are flat: a document's `originalBookmark`, when still stored, is itself no clone. */
  ghost predicate FlatLineage(t: map<BookmarkId, Bookmark>) {
    forall id :: id in t && t[id].originalBookmark.Some? && t[id].originalBookmark.value in t
      ==> t[t[id].originalBookmark.value].originalBookmark.None?
  }

  /** Only clones carry lineage references, and nothing ever becomes public. */
  ghost predicate CloneFieldsAndFlags(t: map<BookmarkId, Bookmark>) {
    forall id :: id in t ==>
      && (t[id].originalBookmark.Some? <==> t[id].clonedFrom.Some?)
      && !t[id].isPublic
  }

  ghost predicate StoreInvariant(t: map<BookmarkId, Bookmark>, next: BookmarkId) {
    && IdsBelow(t, next)
    && ShareCodesUnique(t)
    && OneClonePerUser(t)
    && FlatLineage(t)
    && CloneFieldsAndFlags(t)
  }

  /** At most one document carries a given share code. */
  lemma AtMostOneWithCode(t: map<BookmarkId, Bookmark>, code: string)
    requires ShareCodesUnique(t)
    ensures |set id | id in t && t[id].shareCode == Some(code)| <= 1
  {
    var s := set id | id in t && t[id].shareCode == Some(code);
    if s != {} {
      var a :| a in s;
      forall x | x in s
        ensures x == a
      {
      }
      assert s == {a};
    }
  }

  /** At most one document per (user, source) pair is a clone of that source. */
  lemma AtMostOneClone(t: map<BookmarkId, Bookmark>, user: UserId, src: BookmarkId)
    requires OneClonePerUser(t)
    ensures |set id | id in t && t[id].user == user && t[id].clonedFrom == Some(src)| <= 1
  {
    var s := set id | id in t && t[id].user == user && t[id].clonedFrom == Some(src);
    if s != {} {
      var a :| a in s;
      forall x | x in s
        ensures x == a
      {
      }
      assert s == {a};
    }
  }

  /** Inserting a fresh document that is no clone and has no share code keeps the invariant. */
  lemma InsertNewKeepsInvariant(t: map<BookmarkId, Bookmark>, next: BookmarkId, b: Bookmark)
    requires StoreInvariant(t, next)
    requires b.clonedFrom.None? && b.originalBookmark.None? && b.shareCode.None? && !b.isPublic
    ensures StoreInvariant(t[next := b], next + 1)
  {
  }

  /** Replacing a document by one with the same owner, code, lineage and flag keeps the invariant. */
  lemma ReplaceKeepsInvariant(t: map<BookmarkId, Bookmark>, next: BookmarkId, id: BookmarkId, b: Bookmark)
    requires StoreInvariant(t, next) && id in t
    requires b.user == t[id].user && b.shareCode == t[id].shareCode && b.isPublic == t[id].isPublic
    requires b.clonedFrom == t[id].clonedFrom && b.originalBookmark == t[id].originalBookmark
    ensures StoreInvariant(t[id := b], next)
  {
  }

  /** Giving a document a code no other document holds keeps the invariant. */
  lemma AssignCodeKeepsInvariant(t: map<BookmarkId, Bookmark>, next: BookmarkId, id: BookmarkId, code: string)
    requires StoreInvariant(t, next) && id in t && !CodeTakenByOther(t, id, code)
    ensures StoreInvariant(t[id := t[id].(shareCode := Some(code))], next)
  {
  }

  /** Removing a document keeps the invariant. */
  lemma RemoveKeepsInvariant(t: map<BookmarkId, Bookmark>, next: BookmarkId, id: BookmarkId)
    requires StoreInvariant(t, next)
    ensures StoreInvariant(t - {id}, next)
  {
  }

  /** Inserting the clone of a source the caller has not cloned yet keeps the invariant. */
  lemma InsertCloneKeepsInvariant(t: map<BookmarkId, Bookmark>, next: BookmarkId, srcId: BookmarkId,
                                  caller: UserId, category: CategoryId)
    requires StoreInvariant(t, next) && srcId in t && !HasCloneOf(t, caller, srcId)
    ensures StoreInvariant(t[next := CloneRecord(t[srcId], srcId, caller, category)], next + 1)
  {
    var c := CloneRecord(t[srcId], srcId, caller, category);
    var t' := t[next := c];
    forall x | x in t' && t'[x].originalBookmark.Some? && t'[x].originalBookmark.value in t'
      ensures t'[t'[x].originalBookmark.value].originalBookmark.None?
    {
      var o := t'[x].originalBookmark.value;
      if x == next {
        if t[srcId].originalBookmark.None? {
          assert o == srcId;
        }
      } else {
        assert o < next;
      }
    }
  }

  // ---------------------------------------------------------------------------
  // The store and its handlers
  // ---------------------------------------------------------------------------

  class BookmarkStore {
    /** The bookmark collection. */
    var table: map<BookmarkId, Bookmark>
    /** The id the next inserted document receives. */
    var nextId: BookmarkId

    ghost predicate Valid()
      reads this
    {
      StoreInvariant(table, nextId)
    }

    constructor ()
      ensures Valid() && table == map[] && nextId == 0
    {
      table := map[];
      nextId := 0;
    }

    /** `getBookmarks`: the caller's bookmarks. */
    method List(caller: UserId) returns (r: map<BookmarkId, Bookmark>)
      ensures forall id :: id in r <==> id in table && table[id].user == caller
      ensures forall id :: id in r ==> r[id] == table[id]
    {
      r := map id | id in table && table[id].user == caller :: table[id];
    }

    /**
     * `searchBookmarks`: the caller's bookmarks whose title matches the query
     * or whose category is among the categories whose name matches it. The
     * pattern match is the parameter `titleMatches`; `matchingCategories` is
     * the set of ids of matching categories, of any owner.
     */
    method Search(caller: UserId, titleMatches: string -> bool, matchingCategories: set<CategoryId>)
      returns (r: map<BookmarkId, Bookmark>)
      ensures forall id :: id in r ==> id in table && r[id] == table[id] && table[id].user == caller
      ensures forall id :: id in r ==> titleMatches(r[id].title) || r[id].category in matchingCategories
      ensures forall id :: (id in table && table[id].user == caller
                             && (titleMatches(table[id].title) || table[id].category in matchingCategories))
                            ==> id in r
    {
      r := map id | id in table && table[id].user == caller
                    && (titleMatches(table[id].title) || table[id].category in matchingCategories)
                 :: table[id];
    }

    /** `createBookmark`. */
    method Create(caller: UserId, req: BookmarkFields) returns (r: Result<(BookmarkId, Bookmark), Error>)
      requires Valid()
      modifies this
      ensures Valid()
      ensures CheckCreate(req).Some? ==> r == Failure(CheckCreate(req).value)
      ensures CheckCreate(req).None? && !(RequiredString(req.title) && req.category.Some?) ==> r == Failure(ServerError)
      ensures r.Success? <==> CheckCreate(req).None? && RequiredString(req.title) && req.category.Some?
      ensures r.Failure? ==> table == old(table) && nextId == old(nextId)
      ensures r.Success? ==>
                && r.value.0 == old(nextId) && r.value.0 !in old(table)
                && table == old(table)[r.value.0 := r.value.1] && nextId == old(nextId) + 1
      ensures r.Success? ==>
                var b := r.value.1;
                && b.user == caller && b.title == req.title.value && b.category == req.category.value
                && b.url == UrlOrEmpty(req.url) && b.notes == req.notes && b.filePath == req.filePath
                && b.shareCode.None? && !b.isPublic && b.clonedFrom.None? && b.originalBookmark.None?
    {
      var e := CheckCreate(req);
      if e.Some? {
        return Failure(e.value);
      }
      var d := CreateDraft(caller, req);
      if !PassesRequired(d) {
        return Failure(ServerError);
      }
      var b := Instantiate(d);
      InsertNewKeepsInvariant(table, nextId, b);
      var id := nextId;
      table := table[id := b];
      nextId := nextId + 1;
      r := Success((id, b));
    }

    /** `updateBookmark`: the URL format check, then lookup and ownership, then the partial update. */
    method Update(caller: UserId, id: BookmarkId, req: BookmarkFields) returns (r: Result<Bookmark, Error>)
      requires Valid()
      modifies this
      ensures Valid() && nextId == old(nextId)
      ensures CheckUrlFormat(req.url).Some? ==> r == Failure(InvalidUrlFormat)
      ensures CheckUrlFormat(req.url).None? && id !in old(table) ==> r == Failure(NotFound)
      ensures (CheckUrlFormat(req.url).None? && id in old(table) && old(table)[id].user != caller)
                ==> r == Failure(NotAuthorized)
      ensures r.Success? <==> CheckUrlFormat(req.url).None? && id in old(table) && old(table)[id].user == caller
      ensures r.Failure? ==> table == old(table)
      ensures r.Success? ==> r.value == ApplyUpdate(old(table)[id], req) && table == old(table)[id := r.value]
    {
      var e := CheckUrlFormat(req.url);
      if e.Some? {
        return Failure(e.value);
      }
      if id !in table {
        return Failure(NotFound);
      }
      if table[id].user != caller {
        return Failure(NotAuthorized);
      }
      var b := ApplyUpdate(table[id], req);
      ReplaceKeepsInvariant(table, nextId, id, b);
      table := table[id := b];
      r := Success(b);
    }

    /** `deleteBookmark`: lookup and ownership, then removal. */
    method Delete(caller: UserId, id: BookmarkId) returns (r: Result<string, Error>)
      requires Valid()
      modifies this
      ensures Valid() && nextId == old(nextId)
      ensures id !in old(table) ==> r == Failure(NotFound)
      ensures id in old(table) && old(table)[id].user != caller ==> r == Failure(NotAuthorized)
      ensures r.Success? <==> id in old(table) && old(table)[id].user == caller
      ensures r.Success? ==> r.value == "Bookmark removed" && table == old(table) - {id}
      ensures r.Failure? ==> table == old(table)
    {
      if id !in table {
        return Failure(NotFound);
      }
      if table[id].user != caller {
        return Failure(NotAuthorized);
      }
      RemoveKeepsInvariant(table, nextId, id);
      table := table - {id};
      r := Success("Bookmark removed");
    }

    /** `getPublicBookmark`: title, notes and url of any stored bookmark, with no ownership check. */
    method GetPublicBookmark(id: BookmarkId) returns (r: Result<PublicBookmark, Error>)
      ensures id !in table ==> r == Failure(NotFound)
      ensures id in table ==> r.Success? && r.value.id == id
      ensures r.Success? ==> r.value.title == table[id].title && r.value.notes == table[id].notes
                             && r.value.url == table[id].url
    {
      if id !in table {
        return Failure(NotFound);
      }
      r := Success(PublicView(id, table[id]));
    }

    /**
     * `generateShareCode`: lookup and ownership, then the code rendered from
     * `Math.random().toString(36)` (the parameter `rendered`) replaces any
     * earlier code. Saving re-validates the document, and the unique index
     * refuses a code another document holds; both surface as a server error.
     */
    method GenerateShareCode(caller: UserId, id: BookmarkId, rendered: string) returns (r: Result<string, Error>)
      requires Valid() && IsBase36Fraction(rendered)
      modifies this
      ensures Valid() && nextId == old(nextId)
      ensures id !in old(table) ==> r == Failure(NotFound)
      ensures id in old(table) && old(table)[id].user != caller ==> r == Failure(NotAuthorized)
      ensures (&& id in old(table) && old(table)[id].user == caller
               && (!SchemaValid(old(table)[id]) || CodeTakenByOther(old(table), id, ShareCodeFrom(rendered))))
                ==> r == Failure(ServerError)
      ensures r.Success? <==>
                && id in old(table) && old(table)[id].user == caller && SchemaValid(old(table)[id])
                && !CodeTakenByOther(old(table), id, ShareCodeFrom(rendered))
      ensures r.Failure? ==> table == old(table)
      ensures r.Success? ==>
                && r.value == ShareCodeFrom(rendered)
                && table == old(table)[id := old(table)[id].(shareCode := Some(r.value))]
                && FindByShareCode(table, r.value) == Some(id)
      ensures (r.Success? && old(table)[id].shareCode.Some? && old(table)[id].shareCode.value != r.value)
                ==> FindByShareCode(table, old(table)[id].shareCode.value).None?
    {
      if id !in table {
        return Failure(NotFound);
      }
      if table[id].user != caller {
        return Failure(NotAuthorized);
      }
      var code := ShareCodeFrom(rendered);
      if !SchemaValid(table[id]) || CodeTakenByOther(table, id, code) {
        return Failure(ServerError);
      }
      AssignCodeKeepsInvariant(table, nextId, id, code);
      table := table[id := table[id].(shareCode := Some(code))];
      FindByShareCodeFinds(table, code, id);
      r := Success(code);
    }

    /**
     * `cloneBookmark`: the required fields, then the share-code lookup, then
     * the duplicate-clone check, then the insertion of the clone.
     */
    method Clone(caller: UserId, req: CloneRequest) returns (r: Result<(BookmarkId, Bookmark), Error>)
      requires Valid()
      modifies this
      ensures Valid()
      ensures !Truthy(req.shareCode) ==> r == Failure(ShareCodeRequired)
      ensures Truthy(req.shareCode) && req.categoryId.None? ==> r == Failure(CategoryRequired)
      ensures (Truthy(req.shareCode) && req.categoryId.Some?
               && FindByShareCode(old(table), req.shareCode.value).None?)
                ==> r == Failure(UnknownShareCode)
      ensures (&& Truthy(req.shareCode) && req.categoryId.Some?
               && FindByShareCode(old(table), req.shareCode.value).Some?
               && HasCloneOf(old(table), caller, FindByShareCode(old(table), req.shareCode.value).value))
                ==> r == Failure(AlreadyCloned)
      ensures r.Success? <==>
                && Truthy(req.shareCode) && req.categoryId.Some?
                && FindByShareCode(old(table), req.shareCode.value).Some?
                && !HasCloneOf(old(table), caller, FindByShareCode(old(table), req.shareCode.value).value)
      ensures r.Failure? ==> table == old(table) && nextId == old(nextId)
      ensures r.Success? ==>
                var src := FindByShareCode(old(table), req.shareCode.value).value;
                && r.value.0 == old(nextId) && r.value.0 !in old(table) && nextId == old(nextId) + 1
                && r.value.1 == CloneRecord(old(table)[src], src, caller, req.categoryId.value)
                && table == old(table)[r.value.0 := r.value.1]
                && FindByShareCode(table, req.shareCode.value) == Some(src)
                && HasCloneOf(table, caller, src)
    {
      if !Truthy(req.shareCode) {
        return Failure(ShareCodeRequired);
      }
      if req.categoryId.None? {
        return Failure(CategoryRequired);
      }
      var found := FindByShareCode(table, req.shareCode.value);
      if found.None? {
        return Failure(UnknownShareCode);
      }
      var src := found.value;
      if HasCloneOf(table, caller, src) {
        return Failure(AlreadyCloned);
      }
      var b := CloneRecord(table[src], src, caller, req.categoryId.value);
      InsertCloneKeepsInvariant(table, nextId, src, caller, req.categoryId.value);
      var id := nextId;
      table := table[id := b];
      nextId := nextId + 1;
      assert table[id].user == caller && table[id].clonedFrom == Some(src);
      FindByShareCodeFinds(table, req.shareCode.value, src);
      r := Success((id, b));
    }

    /**
     * `getBookmarkByShareCode`: the preview of the document holding `code`.
     * The names joined in for its category and owner are the parameters
     * `categoryNames` and `userNames`; a join that finds nothing leaves a
     * null whose `name` the handler reads, a run-time failure.
     */
    method GetBookmarkByShareCode(code: string, categoryNames: map<CategoryId, string>, userNames: map<UserId, string>)
      returns (r: Result<SharePreview, Error>)
      requires Valid()
      ensures FindByShareCode(table, code).None? ==> r == Failure(PreviewNotFound)
      ensures FindByShareCode(table, code).Some? ==>
                var b := table[FindByShareCode(table, code).value];
                if b.category in categoryNames && b.user in userNames
                then r == Success(Preview(b, categoryNames[b.category], userNames[b.user]))
                else r == Failure(ServerError)
    {
      var found := FindByShareCode(table, code);
      if found.None? {
        return Failure(PreviewNotFound);
      }
      var b := table[found.value];
      if b.category !in categoryNames || b.user !in userNames {
        return Failure(ServerError);
      }
      r := Success(Preview(b, categoryNames[b.category], userNames[b.user]));
    }
  }
}
