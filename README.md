# Blog platform core in Dafny

This project models the server side of a small blog platform (an Express
API over MongoDB via Mongoose) together with the pagination hook of its
React client, and proves properties of the model:

- **Posts** (`post_controller.dfy`): the paginated listing of published
  posts, newest first; lookup by id then slug, which bumps the view count;
  creation with defaults; partial update; deletion; case-insensitive search
  capped at 20 results; comments. The collection is a `PostStore` class
  over a `seq<Post>`. Listing and search are pure functions over it.
- **Ownership gate** (`authorize.dfy`): `authorizePostOwner` and the
  generic `authorize(model)`, as decision functions answering 404, 403,
  500 or allowing the fetched record.
- **Request validators** (`validate.dfy`): every express-validator rule
  set (register, login, post, post update, category, comment), each a
  function from the request body to the list of failed rules in order,
  and `handleValidationErrors`.
- **Category schema** (`category_model.dfy`): the slug derived from the
  name by the pre-save hook, the `url` virtual, the field constraints,
  and the order in which `save()` runs validation and the hook.
- **Categories** (`category_controller.dfy`): listing by name, lookup by
  id then slug, and create, update and delete on a `CategoryStore` class.
- **Protected post routes** (`post_routes.dfy`): the middleware chains
  gate → validator → controller and validator → controller, run against
  the store.
- **Pagination hook** (`pagination.dfy`): a `PaginationState` class with
  the fields `page` and `totalPages`. Its guarded moves keep
  `1 <= page <= totalPages`. Its raw setters do not.
- Shared pieces:
  - `common.dfy`: optional fields, replies and status codes.
  - `text.dfy`: JavaScript `trim`, ASCII `toLowerCase`, substring search,
    lexicographic order and `join`.
  - `seqs.dfy`: filter, stable sort, find-first, removal at a position,
    skip/limit windows and pages.
  - `identity.dfy`: the id-then-slug resolver.

Each handler returns a `Reply`. It is `Ok(status, value)`,
`Fail(status, error)`, or `Invalid(errors)` for a validator's 400. Each
store method states both its reply and the store's new state, and keeps
the store's invariant:
- posts: ids and slugs are unique;
- categories: ids, names and slugs are unique, and every stored category
  satisfies the schema and carries the slug of its name.

Parts of the system are parameters of the model:
- The post model file is not part of this model. Its schema check, the
  new post's id and slug, the slug `save()` leaves on an updated post,
  and the creation time are parameters.
  `incrementViewCount` and `addComment` are modelled by their evident
  effect: the view count plus one, and the comment appended.
- `isEmail` is a parameter.
- The clock and ObjectId generation become arguments.

## Model

| member | source | states |
|---|---|---|
| PostController.ParamOr | server/controllers/postController.js:10-11 | `parseInt(x) \|\| default`: a missing, non-numeric or zero parameter gives the default, any other value is kept |
| PostController.Matches | server/controllers/postController.js:15-29 | the listing query's matches are a permutation of the published posts of the requested category (when one is given), ordered newest first |
| PostController.MatchesAreExactlyListed | server/controllers/postController.js:15-29 | every published post of the category is among the matches as many times as the collection holds it, and no other post is |
| PostController.ListPosts | server/controllers/postController.js:10-38 | page and limit default to 1 and 10; the posts are the window after `(page-1)*limit` matches, at most `limit` of them; `count` is the window's size, `total` the number of matches, `totalPages` is `ceil(total/limit)` |
| PostController.ListedPostsQualify | server/controllers/postController.js:15-20 | every listed post is published and, when a category is given, in that category |
| PostController.ListedPostsNewestFirst | server/controllers/postController.js:29-31 | a listed page is ordered by `createdAt` descending |
| PostController.TotalCountsEveryMatch | server/controllers/postController.js:23 | `total` counts every matching post, whatever page is asked for |
| PostController.ListingPartition | server/controllers/postController.js:12-38 | for a positive limit, pages 1..totalPages laid end to end are exactly the sorted matches: no post is repeated or skipped |
| PostController.PastLastPageIsEmpty | server/controllers/postController.js:30-38 | a page beyond `totalPages` is an empty list with count 0, not an error |
| PostController.Hits | server/controllers/postController.js:239-248 | the hits are a permutation of the published posts whose title or content contains `q` ignoring case, ordered newest first |
| PostController.HitsAreExactlyMatching | server/controllers/postController.js:239-248 | every matching post is among the hits as many times as the collection holds it, and no other post is |
| PostController.SearchPosts | server/controllers/postController.js:231-249 | a missing or empty `q` (and only that) answers 400 "Search query is required"; otherwise 200 with the first `min(20, hits)` hits in order |
| PostController.SearchResultsAreHits | server/controllers/postController.js:239-249 | every result is a published hit from the collection, newest first, at most 20, and when there are at most 20 hits every hit is returned |
| PostController.IncrementViewCount | server/controllers/postController.js:77 | the view count goes up by one and nothing else changes (the post model's method, assumed) |
| PostController.AppendComment | server/controllers/postController.js:280 | the comment is appended after the existing ones and nothing else changes (the post model's method, assumed) |
| PostController.NewPost | server/controllers/postController.js:99-108 | title, content, excerpt, category and tags are the ones sent; the author is the acting user; a falsy image becomes "default-post.jpg"; isPublished is true only when sent as true; a new post has no views and no comments |
| PostController.ApplyPatch | server/controllers/postController.js:161-167 | title, content, category and image change only when the new value is truthy, tags when sent, excerpt and isPublished whenever defined; id, slug, author, views, comments and creation time never change |
| PostController.PatchIdempotent | server/controllers/postController.js:161-167 | applying the same update twice equals applying it once |
| PostController.EmptyPatchIsIdentity | server/controllers/postController.js:161-167 | an update with no truthy or defined field leaves the post unchanged |
| PostController.CreatedPostResolves | server/controllers/postController.js:57-67 | a post added under fresh keys is found by its id |
| PostController.RemoveKeepsKeysUnique | server/controllers/postController.js:201-210 | deleting a post keeps ids and slugs unique and leaves no post with the deleted id |
| PostController.PostStore.GetPost | server/controllers/postController.js:57-82 | id first, slug only on a miss; both missing is 404 with no change; a hit bumps exactly that post's view count and returns it |
| PostController.PostStore.CreatePost | server/controllers/postController.js:99-134 | a schema failure answers 400 with the messages joined by ", "; a taken key answers 400 "A post with this title already exists"; otherwise 201 and the post is appended; keys stay unique |
| PostController.Saved | server/controllers/postController.js:161-169 | the saved post is the patched one except for its slug, which is whatever the post model's save leaves; the id never changes |
| PostController.ReplaceKeepsKeysUnique | server/controllers/postController.js:169 | replacing a post by one whose id and slug no other post holds keeps ids and slugs unique |
| PostController.KeptSlugNeverCollides | server/controllers/postController.js:161-169 | a save that keeps the post's slug never collides with another post |
| PostController.PostStore.UpdatePost | server/controllers/postController.js:146-194 | unknown id is 404 with no change; a schema failure is 400 with the messages joined by ", " and no change; a saved slug held by another post is a duplicate key, answered 500 "Server error while updating post" with no change; otherwise exactly that post is replaced by the saved one; ids and slugs stay unique |
| PostController.PostStore.DeletePost | server/controllers/postController.js:201-215 | unknown id is 404 with no change; otherwise exactly that post is removed and no post with that id remains |
| PostController.PostStore.AddComment | server/controllers/postController.js:270-288 | unknown id is 404 with no change; otherwise the acting user's comment is appended to exactly that post and 201 returns it |
| Authorize.AuthorizePostOwner | server/middleware/authorize.js:8-27 | not found iff no post has the id; forbidden iff the post found is neither the user's nor the user an admin; an allowed post is the fetched one, with that id, and modifiable by the user; never a server error |
| Authorize.PostGateDecides | server/middleware/authorize.js:18-26 | with unique ids, access is allowed iff the post's author is the user or the user is an admin, forbidden otherwise, and the allowed record is that post |
| Authorize.PostGateReply | server/middleware/authorize.js:10-33 | 404 "Post not found", 403 "Not authorized to perform this action", 500 "Server error", or continue with the post |
| Authorize.OwnerOf | server/middleware/authorize.js:50 | the owner is `author` when truthy, otherwise `user`; there is none exactly when the author is falsy and the user field absent |
| Authorize.AuthorizeResource | server/middleware/authorize.js:40-65 | on the first record with the id: not found iff there is none; server error iff it has no owner; forbidden iff it has an owner who is not the user and the user is no admin; allowed iff the owner is the user or the user an admin, and then with that record |
| Authorize.EmptyAuthorFallsBackToUser | server/middleware/authorize.js:50 | an empty author is falsy, so the owner comes from `user` and that user is allowed |
| Authorize.EmptyAuthorWithoutUserErrs | server/middleware/authorize.js:50-65 | an empty author with no user field leaves no owner, and the gate answers a server error |
| Authorize.GatesPartOnEmptyAuthor | server/middleware/authorize.js:18-65 | on a post with an empty author the post gate refuses a non-admin while the generic gate errs |
| Authorize.ResourceGateReply | server/middleware/authorize.js:42-65 | 404 "Resource not found", 403, 500 "Server error", or continue |
| Authorize.PostGateIsGenericGate | server/middleware/authorize.js:6-59 | when every author is non-empty, the post gate and the generic gate over posts (owner from `author`) reach the same verdict on the same record, and the generic gate never errs on posts |
| Validate.HandleValidationErrors | server/middleware/validate.js:6-20 | no errors continues; otherwise 400 with one `{ field, message }` per error, in order |
| Validate.MongoIdExamples | server/middleware/validate.js:88 | a 24-digit hex id passes `isMongoId`; "" and a slug do not |
| Validate.BoolForm | server/middleware/validate.js:96-99 | `isBoolean` accepts exactly true/false and "true"/"false"/"1"/"0" (and 1/0), with the boolean each denotes |
| Validate.EmailErrors | server/middleware/validate.js:31-37 | an empty email fails "Email is required", an invalid one "Please provide a valid email address", both when both apply |
| Validate.RegisterChecks | server/middleware/validate.js:23-43 | each registration rule fails exactly when its condition fails: username 3..30, email present and valid, password present and at least 6 |
| Validate.ValidateRegister | server/middleware/validate.js:23-46 | registration passes iff the trimmed username has 3..30 characters, the trimmed email is non-empty and valid and the untrimmed password has at least 6; each rule's error iff its condition fails |
| Validate.ValidateLogin | server/middleware/validate.js:49-63 | login passes iff the trimmed email is non-empty and valid and the password is non-empty; only email and password errors can occur |
| Validate.RegisterAcceptedLogsIn | server/middleware/validate.js:23-60 | credentials that pass registration pass login |
| Validate.Failing | server/middleware/validate.js:66-102 | a chain's errors are exactly its checks that fail, in the order the chain runs them (no chain stops at its first failure); none exactly when every check passes |
| Validate.CheckPost | server/middleware/validate.js:66-102 | every check of the creation chain passes exactly when the trimmed title has 1..100 characters, the trimmed content is non-empty, the category is a Mongo id and the optional fields are well formed if sent |
| Validate.PostChainReportsFailure | server/middleware/validate.js:66-102 | the creation chain (title, content, excerpt, category, tags, isPublished) reports an error exactly when one of its checks fails |
| Validate.ValidatePost | server/middleware/validate.js:66-102 | post creation passes iff the body is acceptable; the errors are exactly the failing checks among title required, title too long, content required, excerpt too long, category required, category invalid, tags not an array and isPublished not a boolean, in that order |
| Validate.CheckPostUpdate | server/middleware/validate.js:105-142 | the update chain never requires a category; all its checks pass exactly when every sent field is well formed (title 1..100 and content non-empty after trim, category a Mongo id, optional fields as for creation) |
| Validate.PostUpdateChainReportsFailure | server/middleware/validate.js:105-142 | the update chain reports an error exactly when one of its own checks fails |
| Validate.ValidatePostUpdate | server/middleware/validate.js:105-142 | a post update passes iff every sent field is well formed; the errors are exactly the failing checks on sent fields, in the chain's order title, content, excerpt, category, tags, isPublished |
| Validate.ReportedInChainOrder | server/middleware/validate.js:66-142 | of two failing checks, the one that runs first is reported first |
| Validate.ExcerptReportedBeforeCategory | server/middleware/validate.js:79-89 | a too-long excerpt and an invalid category id are both reported, the excerpt's error first |
| Validate.CreatableIsUpdatable | server/middleware/validate.js:66-142 | every body accepted for creation is accepted for update |
| Validate.EmptyUpdateAccepted | server/middleware/validate.js:105-142 | an update sending no field passes |
| Validate.ValidateCategory | server/middleware/validate.js:145-160 | a category passes iff its trimmed name has 1..50 characters and a sent description trims to at most 200 |
| Validate.ValidateComment | server/middleware/validate.js:163-172 | a comment passes iff its trimmed content has 1..500 characters |
| Validate.BlankCommentFailsTwice | server/middleware/validate.js:163-172 | absent or blank content fails both rules, so the 400 lists two errors for `content` |
| Validate.TrimmedField | server/middleware/validate.js:106-122 | the `trim()` sanitizer leaves an absent field absent and trims a present one |
| CategoryModel.KeepWordsAndSpaces | server/models/Category.js:35 | only `[A-Za-z0-9_ ]` survives, and the result is no longer than the input |
| CategoryModel.KeepWordsAndSpacesCounts | server/models/Category.js:35 | every `[A-Za-z0-9_ ]` character is kept as many times as the input holds it, and no other character appears |
| CategoryModel.Hyphenate | server/models/Category.js:36 | no space survives, and a first character that is not a space stays first |
| CategoryModel.HyphenateSpaceRun | server/models/Category.js:36 | after a space-free prefix, a run of one or more spaces, whatever its length, becomes a single `-` and the rest is hyphenated on its own |
| CategoryModel.Slugify | server/models/Category.js:33-36 | a slug holds only `[a-z0-9_-]` and never two hyphens in a row |
| CategoryModel.SlugifyKeepsPlainSlug | server/models/Category.js:33-36 | a name made of `[a-z0-9_]` is its own slug |
| CategoryModel.SlugOfTwoWords | server/models/Category.js:33-36 | two words with punctuation after each, separated by a space, give the lower-cased words joined by `-` ("Hello, World!" gives "hello-world") |
| CategoryModel.SlugDropsPunctuation | server/models/Category.js:35 | punctuation between two words, a hyphen included, is deleted ("hello-world" gives "helloworld") |
| CategoryModel.SlugOfDeleted | server/models/Category.js:33-36 | a name with no character of `[A-Za-z0-9_ ]` has the empty slug |
| CategoryModel.SlugifyNotIdempotent | server/models/Category.js:33-36 | slugifying the slug of two space-separated words changes it |
| CategoryModel.SlugHook | server/models/Category.js:28-38 | the slug is recomputed from the name when the name was modified, and kept otherwise |
| CategoryModel.Url | server/models/Category.js:42-44 | the url is "/categories/" followed by the slug |
| CategoryModel.UrlInjective | server/models/Category.js:42-44 | distinct slugs give distinct urls |
| CategoryModel.SchemaErrors | server/models/Category.js:7-22 | a category passes iff its name has 1..50 characters, a description at most 200 and the slug is set and non-empty; the name and slug messages appear exactly when those are missing |
| CategoryModel.Store | server/models/Category.js:10-21 | a document sharing an id, name or slug with a stored one is a duplicate-key error, otherwise it is stored |
| CategoryModel.SaveAsWritten | server/models/Category.js:18-38 | the schema is checked on the document as it stands, and only a document that passes gets the hook's slug |
| CategoryModel.CreateAsWrittenAlwaysFails | server/models/Category.js:18-38 | as written, saving a new category fails with "Path `slug` is required." whatever its name |
| CategoryModel.RenameAsWrittenStoresEmptySlug | server/models/Category.js:18-38 | as written, renaming to a name such as "!!!" stores the empty slug |
| CategoryModel.Save | server/models/Category.js:7-38 | with the hook first, the schema is checked on the document carrying the hook's slug |
| CategoryModel.SavedSatisfiesSchema | server/models/Category.js:7-38 | whatever `Save` stores satisfies the schema, collides with no stored category, and carries the new name's slug when the name changed and the old slug otherwise |
| CategoryModel.CreateSucceeds | server/models/Category.js:7-38 | with the hook first, a new category with a valid name whose slug is non-empty and clashes with nothing is stored under that slug |
| CategoryController.ListCategories | server/controllers/categoryController.js:10-16 | 200 with every category (a permutation of the collection), sorted by name ascending |
| CategoryController.ListingStrictlyIncreasing | server/controllers/categoryController.js:10 | with unique names the listing is strictly increasing by name |
| CategoryController.GetCategory | server/controllers/categoryController.js:33-49 | 404 "Category not found" iff no category has the token as id or slug; a category with that id wins over one with that slug |
| CategoryController.CreatedCategoryResolves | server/controllers/categoryController.js:33-37 | a category added without collision is found by its id |
| CategoryController.Rename | server/controllers/categoryController.js:127 | a truthy name replaces the old one, trimmed by the schema; the name counts as modified exactly when it changes |
| CategoryController.Redescribe | server/controllers/categoryController.js:128 | a defined description replaces the old one; an undefined one keeps it |
| CategoryController.RemoveKeepsValid | server/controllers/categoryController.js:158-167 | removing a category keeps the collection valid and leaves no category with its id |
| CategoryController.ReplaceKeepsValid | server/controllers/categoryController.js:127-130 | replacing a category by a well-formed one colliding with none of the others keeps the collection valid |
| CategoryController.CategoryStore.CreateCategory | server/controllers/categoryController.js:61-107 | an existing name is 400 "Category already exists" with no change; otherwise the save's outcome: 400 with messages joined by ", ", 400 "A category with this name already exists" on a duplicate key, or 201 with the category appended |
| CategoryController.CategoryStore.UpdateCategory | server/controllers/categoryController.js:113-151 | unknown id is 404 with no change; a schema failure is 400 with messages joined by ", "; a duplicate key is 500; otherwise 200 with exactly that category replaced |
| CategoryController.CategoryStore.DeleteCategory | server/controllers/categoryController.js:156-179 | unknown id is 404 with no change; otherwise exactly that category is removed and 200 "Category deleted successfully" |
| UsePagination.NextOf | client/src/hooks/usePagination.js:7-14 | the page moves up by one exactly when `page < totalPages`, and stays in range |
| UsePagination.PrevOf | client/src/hooks/usePagination.js:8-20 | the page moves down by one exactly when `page > 1`, and stays in range |
| UsePagination.GoTo | client/src/hooks/usePagination.js:22-26 | the page becomes `n` when `1 <= n <= totalPages` and is unchanged otherwise |
| UsePagination.NextThenPrev | client/src/hooks/usePagination.js:10-20 | with a next page, next then previous returns to the start |
| UsePagination.PrevThenNext | client/src/hooks/usePagination.js:10-20 | with a previous page, previous then next returns to the start |
| UsePagination.NextTimesStopsAtLast | client/src/hooks/usePagination.js:10-14 | k steps forward reach `min(page + k, totalPages)` |
| UsePagination.GoToIdempotent | client/src/hooks/usePagination.js:22-26 | jumping to the same page twice is jumping once |
| UsePagination.PaginationState.constructor | client/src/hooks/usePagination.js:3-5 | the page starts at the initial page, 1 by default, with one page in total; the state is in range exactly when that page is 1 |
| UsePagination.PaginationState.NextPage | client/src/hooks/usePagination.js:10-14 | the page becomes `NextOf` of the old state; the total is unchanged; the range invariant is kept |
| UsePagination.PaginationState.PrevPage | client/src/hooks/usePagination.js:16-20 | the page becomes `PrevOf` of the old page; the total is unchanged; the range invariant is kept |
| UsePagination.PaginationState.GoToPage | client/src/hooks/usePagination.js:22-26 | the page becomes `GoTo` of the old state; the total is unchanged; the range invariant is kept |
| UsePagination.PaginationState.Reset | client/src/hooks/usePagination.js:28-30 | the page becomes 1 and the total is untouched; the range invariant is kept |
| UsePagination.PaginationState.SetPage | client/src/hooks/usePagination.js:34 | any page is stored unchecked; the state is in range exactly when that page is |
| UsePagination.PaginationState.SetTotalPages | client/src/hooks/usePagination.js:36 | any total is stored and the page is not clamped, so a total below the current page breaks the range invariant |
| PostRoutes.Sanitize | server/middleware/validate.js:105-139 | the controller sees title, content and excerpt trimmed, the tags array's items, and isPublished as the boolean its accepted form denotes |
| PostRoutes.AcceptedUpdateIsApplied | server/controllers/postController.js:161-167 | after the update rules pass, every sent title, content, excerpt, tags and isPublished reaches the post, trimmed where the chain trims |
| PostRoutes.UpdatePostRoute | server/routes/posts.js:30 | the gate runs first: unknown id 404 and stranger 403 whatever the body; then an invalid body is a 400 listing its errors; only then does the update run, with `updatePost`'s outcomes; every rejection leaves the store unchanged |
| PostRoutes.DeletePostRoute | server/routes/posts.js:31 | unknown id 404, stranger 403, otherwise the owner's or an admin's delete removes exactly that post |
| PostRoutes.CommentRoute | server/routes/posts.js:32 | blank or over-long content is a 400 and never reaches the store; otherwise the trimmed comment (1..500 characters) by the acting user is appended |
| PostRoutes.CreatePostRoute | server/routes/posts.js:29 | an invalid body is a 400 with no change; otherwise the created post has the trimmed title (1..100), non-empty trimmed content and a Mongo-id category, and the store follows `createPost` |

## Left out

- Express, HTTP, JSON encoding, database connections, `populate` (a display join) and the `success` flags are not modelled. Replies carry the status and either the value or the error text.
- The post model file is not part of this model. The new post's slug, the slug `save()` leaves on an updated post, the post schema and its messages, and the creation time are parameters. `incrementViewCount` and `addComment` are assumed to add one view and to append one comment.
- Authentication (`protect`, JWT, the user store) is not part of this model. The acting user is a parameter.
- ObjectId casting is library behaviour and is not modelled. `findById` on a token that is not an ObjectId may throw, which would turn the slug fallback into a 500. Ids here are plain strings.
- The database's own failures (the `catch` branches answering 500 with "Server error while …") are not modelled, apart from the ones the model derives: the generic gate on an owner-less record, and a duplicate key on category update.
- Timestamps (`createdAt`, `updatedAt`) are set by the library. Creation time is an argument.
- Concurrency is not modelled. Every operation runs alone, so view-count bumps and comment appends are never interleaved.
- PostController.SearchPosts: `q` is a regular expression in the source. The model treats it as literal text, matched as a case-insensitive substring with ASCII case folding. Queries with metacharacters are not modelled.
- PostController.ListPosts: page and limit are natural numbers. A negative value (which `parseInt` can give) is not modelled, and `Math.ceil` over floating point is integer ceiling division.
- Sort ties: the database leaves the order of equal `createdAt` (or equal names) unspecified. The model uses a stable insertion sort.
- Text.Lower: `toLowerCase` is modelled on ASCII letters only. Non-ASCII letters keep their case, and the slug rule deletes them anyway. The Kelvin sign and dotted capital I, which lower-case into ASCII, are not modelled.
- Lengths count `char`s, which are Unicode code points. express-validator's `isLength` counts code points too, but treats some combining sequences differently.
- CategoryModel.SchemaErrors: Mongoose's `maxlength` (name 50, description 200) counts UTF-16 code units. The model counts code points, so it accepts a name of 26 characters outside the Basic Multilingual Plane (52 code units), which Mongoose rejects.
- Authorize.PostGateIsGenericGate: stated only for posts whose author is non-empty, as a stored author reference always is. On an empty author the two gates differ, as `GatesPartOnEmptyAuthor` shows.
- Validate.EmailErrors: `isEmail` is a parameter, and `normalizeEmail` (which rewrites the address) is not modelled.
- Validate.BoolForm: an array sent as isPublished is rejected. The library would check each element.
- JSON `null` and non-string values in string fields are not modelled. A field is absent or a string, and an absent field reads as "".
- Admin-only access to categories is not modelled: the category routes require only authentication, whatever the handlers' comments say.
- React batching and stale closures in the pagination hook are not modelled. Each call sees the latest state.
- The image upload route (`multer` and the file system) is file I/O and is not modelled.
- The client components (`HomePage`, `PostCard`, `Pagination` and the rest) are rendering and fetching, and are not modelled.
- CategoryController.CategoryStore.CreateCategory: the name is a string, as `validateCategory` guarantees before the handler runs. An absent name reaching the handler is not modelled.
- Mongoose error order: the messages of a `ValidationError` are taken in schema path order, one per failing path.
- Category saving follows the corrected order (hook before validation; see Findings). The store never holds the empty slug that the as-written order can store.

## Findings

| source | as written | input that shows it | evidently intended | confidence | as-written member | corrected member |
|---|---|---|---|---|---|---|
| server/models/Category.js:18-38 | `slug` is `required`, but it is set in a `pre('save')` hook. Mongoose validates before running `pre('save')` hooks, so a new category has no slug when validated. | `POST /api/categories` with `{ "name": "Tech" }` answers 400 "Path `slug` is required."; renaming a category to "!!!" stores the empty slug | the slug is derived before validation (a `pre('validate')` hook), so creation succeeds and an empty slug is rejected | not executed | CategoryModel.CreateAsWrittenAlwaysFails | CategoryModel.CreateSucceeds |
