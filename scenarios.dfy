/**
 * Properties that span several requests, stated as client methods that run
 * the handlers one after another on a store in any valid state. Each is
 * proved from the handlers' contracts alone.
 */
module Scenarios {
  import opened Wrappers
  import opened BookmarkModel
  import opened Validation
  import opened BookmarkController

  /** A created bookmark, fetched publicly by its id, shows the title, notes and url it was created with. */
  method CreateThenFetchPublic(store: BookmarkStore, caller: UserId, req: BookmarkFields)
    returns (created: Result<(BookmarkId, Bookmark), Error>, fetched: Result<PublicBookmark, Error>)
    requires store.Valid()
    modifies store
    ensures store.Valid()
    ensures created.Success? <==> CheckCreate(req).None? && RequiredString(req.title) && req.category.Some?
    ensures created.Success? ==>
              fetched == Success(PublicBookmark(created.value.0, req.title.value, req.notes, UrlOrEmpty(req.url)))
    ensures created.Success? && req.url.None? ==> fetched.value.url == ""
  {
    created := store.Create(caller, req);
    var id := if created.Success? then created.value.0 else 0;
    fetched := store.GetPublicBookmark(id);
  }

  /** Generating a second code for a bookmark replaces the first: the old code resolves to nothing. */
  method ShareTwice(store: BookmarkStore, caller: UserId, id: BookmarkId, first: string, second: string)
    returns (r1: Result<string, Error>, r2: Result<string, Error>)
    requires store.Valid() && IsBase36Fraction(first) && IsBase36Fraction(second)
    modifies store
    ensures store.Valid()
    ensures r1.Success? && r2.Success? ==> FindByShareCode(store.table, r2.value) == Some(id)
    ensures r1.Success? && r2.Success? && r1.value != r2.value ==> FindByShareCode(store.table, r1.value).None?
  {
    r1 := store.GenerateShareCode(caller, id, first);
    r2 := store.GenerateShareCode(caller, id, second);
  }

  /** The same user cloning the same shared bookmark twice is refused the second time, with nothing stored. */
  method CloneTwice(store: BookmarkStore, caller: UserId, req: CloneRequest)
    returns (r1: Result<(BookmarkId, Bookmark), Error>, r2: Result<(BookmarkId, Bookmark), Error>)
    requires store.Valid()
    modifies store
    ensures store.Valid()
    ensures r1.Success? ==> r2 == Failure(AlreadyCloned)
    ensures r1.Success? ==> store.table == old(store.table)[r1.value.0 := r1.value.1]
  {
    r1 := store.Clone(caller, req);
    r2 := store.Clone(caller, req);
  }

  /**
   * A root bookmark shared by its owner and cloned by a second user, whose
   * clone is shared in turn and cloned by a third user: both clones name the
   * root as `originalBookmark`, and each names its immediate source as
   * `clonedFrom`.
   */
  method CloneOfClone(store: BookmarkStore, owner: UserId, second: UserId, third: UserId, root: BookmarkId,
                      render1: string, render2: string, cat2: CategoryId, cat3: CategoryId)
    returns (c: Result<(BookmarkId, Bookmark), Error>, d: Result<(BookmarkId, Bookmark), Error>)
    requires store.Valid() && IsBase36Fraction(render1) && IsBase36Fraction(render2)
    requires root in store.table && store.table[root].originalBookmark.None?
    modifies store
    ensures store.Valid()
    ensures c.Success? ==>
              && c.value.1.user == second && c.value.1.clonedFrom == Some(root)
              && c.value.1.originalBookmark == Some(root)
    ensures c.Success? && d.Success? ==>
              && d.value.1.user == third && d.value.1.clonedFrom == Some(c.value.0)
              && d.value.1.originalBookmark == Some(root)
  {
    var s1 := store.GenerateShareCode(owner, root, render1);
    if s1.Failure? {
      c, d := Failure(s1.error), Failure(s1.error);
      return;
    }
    c := store.Clone(second, CloneRequest(Some(s1.value), Some(cat2)));
    if c.Failure? {
      d := c;
      return;
    }
    var s2 := store.GenerateShareCode(second, c.value.0, render2);
    if s2.Failure? {
      d := Failure(s2.error);
      return;
    }
    d := store.Clone(third, CloneRequest(Some(s2.value), Some(cat3)));
  }

  /**
   * Update does not re-check that a url or a file is present: the owner can
   * blank both out and the update succeeds.
   */
  method UpdateCanBlankUrlAndFile(store: BookmarkStore, caller: UserId, id: BookmarkId)
    returns (r: Result<Bookmark, Error>)
    requires store.Valid() && id in store.table && store.table[id].user == caller
    modifies store
    ensures store.Valid()
    ensures r.Success? && r.value.url == "" && r.value.filePath == Some("")
    ensures id in store.table && store.table[id] == r.value
  {
    r := store.Update(caller, id, BookmarkFields(None, Some(""), None, None, Some("")));
  }
}
