# Bookmark sharing and cloning, modelled in Dafny

This project models the bookmark workflow of a bookmark-management REST
API. The workflow covers these handlers:
- create, update and delete a bookmark;
- list and search the caller's bookmarks;
- the public fetch by id;
- share-code generation;
- clone by share code;
- the share preview.

It also models the Bookmark schema these handlers run against.

The document database becomes an in-memory table: a `map` from bookmark id to
a `Bookmark` record, held by the class `BookmarkController.BookmarkStore`.
Each handler is a method of that class. It checks its inputs in the
controller's order. It then either returns an error response or changes the
table. An error response is an HTTP status and the message the client sees.

The store's invariant `StoreInvariant` holds before and after every handler:
- share codes are unique among bookmarks that have one;
- no user holds two clones of the same source;
- lineages are flat (a clone's `originalBookmark` is never itself a clone);
- only clones carry lineage references;
- `isPublic` stays false.

Files:
- `wrappers.dfy`: `Option` and `Result`.
- `bookmark_model.dfy` (module `BookmarkModel`): the schema of `models/Bookmark.js`. It holds the stored record, the draft a handler builds before defaults and validation, the required-field check, and the unique-sparse share-code index.
- `validation.dfy` (module `Validation`): JavaScript truthiness, `String.prototype.trim`, the URL regular expression `^(ftp|http|https):\/\/[^ "]+$`, and how a share code is rendered from a random number.
- `bookmark_controller.dfy` (module `BookmarkController`): the error responses, the pure pieces of `controllers/bookmarkController.js`, the table invariant with its preservation lemmas, and the store class with the handlers.
- `scenarios.dfy` (module `Scenarios`): properties that span several requests, proved from the handlers' contracts.

Inputs the handlers get from outside are parameters of the model:
- the authenticated caller is a `UserId`;
- the random number behind a share code is its rendering `Math.random().toString(36)`;
- search's case-insensitive title pattern is a predicate `titleMatches`, and its category-name query is the set of matching category ids;
- the preview's joins are maps from category and user ids to names.

Three behaviours of the code worth noting:
- A second clone of the same source by the same user answers 400 ("You have already cloned this bookmark").
- A share code has at most ten characters. `substr(2, 10)` of a short rendering such as `"0.i"` (for 0.5) gives a shorter code, and the rendering `"0"` gives the empty code.
- Re-saving a document in `generateShareCode` runs the schema's required-field check again. The update handler does not run it, so an update can store an empty title, and a later share-code request on that bookmark answers 500.

## Model

| member | source | states |
|---|---|---|
| `Validation.Trim` | controllers/bookmarkController.js:20 | `trim` returns a slice of the input whose removed prefix and suffix are all whitespace and whose ends are not whitespace; the result is empty exactly when every character is whitespace |
| `Validation.TrimStart` | controllers/bookmarkController.js:20 | the leading part that `trim` removes is all whitespace, and what remains does not start with whitespace |
| `Validation.TrimEnd` | controllers/bookmarkController.js:20 | the trailing part that `trim` removes is all whitespace, and what remains does not end with whitespace |
| `Validation.BlankField` | controllers/bookmarkController.js:25 | `!v \|\| v.trim() === ''` holds exactly when the field is absent or all whitespace |
| `Validation.UrlRegexTest` | controllers/bookmarkController.js:19-20 | the regex test accepts exactly the strings of the form `ftp://`, `http://` or `https://` followed by one or more characters that are neither a space nor `"`, to the end |
| `Validation.AllUrlChars` | controllers/bookmarkController.js:19 | the character class `[^ "]+` accepts a tail exactly when it contains no space and no double quote |
| `Validation.ShareCodeFrom` | controllers/bookmarkController.js:142 | a share code has at most 10 characters, each an upper-case base-36 digit: the upper-cased digits after `0.` of the random number's rendering |
| `BookmarkModel.Instantiate` | models/Bookmark.js:19-38 | a new document gets `url` = `''` when none is supplied, `isPublic` = false and no share code; the supplied fields are kept |
| `BookmarkModel.UserNotRequiredAsWritten` | models/Bookmark.js:5-9 | as written, a draft with a category and a title but no owner passes validation |
| `BookmarkModel.PassesRequiredMeansOwned` | models/Bookmark.js:5-18 | the intended check requires an owner, a category and a non-empty title |
| `BookmarkModel.SchemaValidIffTitle` | models/Bookmark.js:15-18 | re-validating a stored document fails only when its title is empty |
| `BookmarkModel.InstantiateIsSchemaValid` | models/Bookmark.js:10-18 | a document that passed validation when created passes it again when re-saved |
| `BookmarkModel.SparseIndexAllowsManyWithoutCode` | models/Bookmark.js:30-34 | storing a document without a share code, new or in place of another, never breaks the unique index, whatever the table holds |
| `BookmarkController.CheckUrlFormat` | controllers/bookmarkController.js:18-22 | 400 "Invalid URL format" exactly when the url is present, not blank and not of the URL pattern |
| `BookmarkController.CheckCreate` | controllers/bookmarkController.js:18-27 | the URL check comes first; then 400 when both url and filePath are absent or blank; it passes exactly when the url is blank or well-formed and one of the two is non-blank |
| `BookmarkController.UrlOrEmpty` | controllers/bookmarkController.js:32 | `url \|\| ''` is the empty string for an absent or empty url and the url as given otherwise, whitespace included |
| `BookmarkController.CreateDraft` | controllers/bookmarkController.js:30-37 | the built document is owned by the caller, has `url \|\| ''` as url, and passes validation exactly when a non-empty title and a category are given |
| `BookmarkController.ApplyUpdate` | controllers/bookmarkController.js:65-69 | each of title, url, notes, category and filePath takes the body's value when the body gives it and keeps the stored value when it does not; owner, share code, lineage and `isPublic` keep their values |
| `BookmarkController.FindByShareCode` | controllers/bookmarkController.js:168 | the lookup returns a document holding the code, or none when no document holds it |
| `BookmarkController.FindByShareCodeFinds` | controllers/bookmarkController.js:209 | since codes are unique, the lookup returns the one document that holds the code |
| `BookmarkController.LineageRoot` | controllers/bookmarkController.js:193 | the root is the source's `originalBookmark` when set, else the source's id |
| `BookmarkController.CloneRecord` | controllers/bookmarkController.js:185-194 | a clone gets the source title plus `" (Cloned)"`, the source's url, notes and filePath, the requested category, the caller as owner, the source as `clonedFrom` and the source's root as `originalBookmark`; it has no share code and always passes validation |
| `BookmarkController.PublicView` | controllers/bookmarkController.js:116 | the public fetch exposes the id, title, notes and url, and nothing else |
| `BookmarkController.Preview` | controllers/bookmarkController.js:217-224 | `hasFile` holds exactly when filePath is present and non-empty; the path itself is not part of the preview |
| `BookmarkController.AtMostOneWithCode` | models/Bookmark.js:30-34 | under the unique index, at most one document carries a given share code |
| `BookmarkController.AtMostOneClone` | controllers/bookmarkController.js:174-182 | under the store invariant, each (user, source) pair has at most one clone |
| `BookmarkController.InsertNewKeepsInvariant` | controllers/bookmarkController.js:30-39 | inserting a fresh document with no code and no lineage keeps the table invariant |
| `BookmarkController.ReplaceKeepsInvariant` | controllers/bookmarkController.js:65-69 | replacing a document while keeping its owner, code, lineage and flag keeps the table invariant |
| `BookmarkController.AssignCodeKeepsInvariant` | controllers/bookmarkController.js:144-145 | giving a document a code no other document holds keeps the table invariant |
| `BookmarkController.RemoveKeepsInvariant` | controllers/bookmarkController.js:88 | removing a document keeps the table invariant |
| `BookmarkController.InsertCloneKeepsInvariant` | controllers/bookmarkController.js:185-196 | inserting the clone of a source the caller has not cloned keeps share codes unique, one clone per user and source, and lineages flat |
| `BookmarkController.BookmarkStore.List` | controllers/bookmarkController.js:5-8 | listing returns exactly the caller's bookmarks |
| `BookmarkController.BookmarkStore.Search` | controllers/bookmarkController.js:97-107 | every result is owned by the caller and matches the title pattern or a matching category; every such bookmark of the caller is returned |
| `BookmarkController.BookmarkStore.Create` | controllers/bookmarkController.js:15-45 | 400 for a bad url or for no url and no file, and 500 for a missing title or category; the table is unchanged in each case. On success exactly one new record is inserted, with the caller as owner and `url \|\| ''` as url, and nothing else changes |
| `BookmarkController.BookmarkStore.Update` | controllers/bookmarkController.js:47-76 | first 400 for a bad url, then 404 for a missing id, then 401 for another owner, with the table unchanged; url-or-file is not rechecked; on success only the target changes, through `ApplyUpdate` |
| `BookmarkController.BookmarkStore.Delete` | controllers/bookmarkController.js:78-95 | 404 for a missing id and 401 for another owner, with the table unchanged; otherwise exactly the target is removed |
| `BookmarkController.BookmarkStore.GetPublicBookmark` | controllers/bookmarkController.js:114-125 | 404 for a missing id; otherwise the title, notes and url of that bookmark, whatever its owner or `isPublic` |
| `BookmarkController.BookmarkStore.GenerateShareCode` | controllers/bookmarkController.js:128-152 | 404 and 401 as for delete, and 500 when re-validation fails or another document holds the code; the table is unchanged in each case. On success only the target's code changes, to the new code, which resolves to the target, and the old code no longer resolves |
| `BookmarkController.BookmarkStore.Clone` | controllers/bookmarkController.js:155-202 | 400 without a share code, 400 without a category, 404 for an unknown code, and 400 when the caller already cloned the source; the table is unchanged in each case. On success exactly the clone built by `CloneRecord` is inserted |
| `BookmarkController.BookmarkStore.GetBookmarkByShareCode` | controllers/bookmarkController.js:205-229 | 404 for an unknown code, 500 when the category or the owner cannot be joined, and otherwise the preview of the document holding the code |
| `Scenarios.CreateThenFetchPublic` | controllers/bookmarkController.js:30-39 | after a successful create, the public fetch of the new id returns the given title and notes, and `url \|\| ''` (empty when the url was omitted) |
| `Scenarios.ShareTwice` | controllers/bookmarkController.js:142-147 | a second share code replaces the first: the new code resolves to the bookmark and the old one to nothing |
| `Scenarios.CloneTwice` | controllers/bookmarkController.js:174-182 | after a successful clone, the same request from the same user is refused with "already cloned" and stores nothing |
| `Scenarios.CloneOfClone` | controllers/bookmarkController.js:193 | cloning a clone of a root gives a bookmark whose `originalBookmark` is the root and whose `clonedFrom` is the clone |
| `Scenarios.UpdateCanBlankUrlAndFile` | controllers/bookmarkController.js:65-69 | an owner's update that empties both url and filePath succeeds |

## Findings

| source | as written | input that shows it | evidently intended | confidence | as-written member | corrected member |
|---|---|---|---|---|---|---|
| models/Bookmark.js:8 | the owner field carries `nnrequired: true`, an option the schema does not know, so the owner is not required | a document with a category and a non-empty title but no `user` passes validation | `required: true`, so a bookmark without an owner is refused | high (not executed) | `BookmarkModel.UserNotRequiredAsWritten` | `BookmarkModel.PassesRequiredMeansOwned` |

The rest of the model validates new documents with the corrected check
`PassesRequired`. Both handlers that create documents always set the owner,
so through them the two checks accept the same documents.

## Left out

- Authentication (the token middleware): the caller is an already-authenticated `UserId` parameter.
- Routing, CORS, static serving and start-up (`server.js`, the route files): they only map paths to handlers.
- The category handlers, the auth handlers and file uploads are not part of this model.
- Random share codes: the rendering of `Math.random().toString(36)` is a parameter. A collision is modelled as the 500 the store's unique index causes, with no retry.
- Document ids: the store hands out ids from a counter and never reuses one. This stands in for ObjectId generation.
- Ids are typed values. A malformed id string, which makes the store raise a cast error and the handler answer 500, is not modelled.
- Body fields are absent or strings. A field of another JSON type is not modelled. For example, a numeric url makes `url.trim` throw outside the handler's `try`. An explicit `null` is not modelled either.
- Update treats a field the body leaves out as "keep the stored value", following Mongoose versions that drop `undefined` keys from `$set`.
- `BookmarkController.BookmarkStore.Search`: the case-insensitive `$regex` title match is an abstract predicate. The category-name query (not scoped to the caller) is a given set of category ids. Only the owner filter and the shape of the disjunction are stated.
- `BookmarkController.BookmarkStore.GetBookmarkByShareCode`: the `populate` joins are given as maps from ids to names.
- Timestamps (`createdAt`, `updatedAt`) are not modelled.
- Store failures other than the validation, duplicate-key and join failures above are not modelled, for example a lost connection.
- Concurrency: each handler runs atomically. The race between the duplicate-clone check and the insert, and a delete between update's two store calls, are not modelled.
- JavaScript strings are UTF-16 code units; the model uses Unicode scalar values. `trim` and the URL pattern treat both the same way.
- `toUpperCase` is modelled for ASCII letters only. Share codes contain nothing else.
- The title is required on create and clone but not kept by update. So the table invariant does not include "every title is non-empty".
