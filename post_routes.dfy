/** The protected post routes as middleware chains: the ownership gate runs
    first, then the request's rule set and its error handler, then the
    controller on the sanitized body. A request stopped by one stage never
    reaches the next, and leaves the store as it was. */
module PostRoutes {
  import opened Common
  import opened Text
  import opened Seqs
  import opened PostController
  import opened Authorize
  import opened Validate

  /** The body the controller reads once the rule set has run: the sanitizing
      `trim()` of title, content and excerpt has been applied, tags are the
      array's items, and isPublished is the boolean its accepted form
      denotes (which the post model casts it to). */
  function Sanitize(b: PostBody): (f: PostFields)
    ensures f.title == TrimmedField(b.title) && f.content == TrimmedField(b.content)
    ensures f.excerpt == TrimmedField(b.excerpt)
    ensures f.category == b.category && f.featuredImage == b.featuredImage
    ensures f.tags.Some? <==> b.tags.Some? && b.tags.value.JArr?
    ensures f.tags.Some? ==> f.tags.value == b.tags.value.items
    ensures f.isPublished.Some? <==> b.isPublished.Some? && BoolForm(b.isPublished.value).Some?
    ensures f.isPublished.Some? ==> Some(f.isPublished.value) == BoolForm(b.isPublished.value)
  {
    PostFields(
      title := TrimmedField(b.title),
      content := TrimmedField(b.content),
      excerpt := TrimmedField(b.excerpt),
      category := b.category,
      tags := if b.tags.Some? && b.tags.value.JArr? then Some(b.tags.value.items) else None,
      featuredImage := b.featuredImage,
      isPublished := if b.isPublished.Some? then BoolForm(b.isPublished.value) else None)
  }

  /** Once an update body passes its rule set, every field it sends reaches
      the post: a sent title or content is non-empty after trimming, so the
      controller's truthiness test never drops it, and a sent excerpt,
      tags or isPublished is defined. */
  lemma AcceptedUpdateIsApplied(p: Post, b: PostBody)
    requires ValidatePostUpdate(b) == []
    ensures var q := ApplyPatch(p, Sanitize(b));
      && (b.title.Some? ==> q.title == Trim(b.title.value) && 1 <= |q.title| <= 100)
      && (b.content.Some? ==> q.content == Trim(b.content.value) && q.content != "")
      && (b.excerpt.Some? ==> q.excerpt == Some(Trim(b.excerpt.value)) && |q.excerpt.value| <= 200)
      && (b.tags.Some? ==> q.tags == b.tags.value.items)
      && (b.isPublished.Some? ==> Some(q.isPublished) == BoolForm(b.isPublished.value))
      && (b.category.Some? && b.category.value != "" ==> q.category == b.category.value)
  {
  }

  /** What the error handler's 400 becomes as a reply. */
  function Rejection(errors: seq<Rule>): (r: Reply<Post>)
    requires errors != []
    ensures r.Invalid? && |r.errors| == |errors|
    ensures r.errors == HandleValidationErrors(errors).errors
  {
    Invalid(HandleValidationErrors(errors).errors)
  }

  /** `PUT /api/posts/:id`: `authorizePostOwner`, then `validatePostUpdate`,
      then `updatePost`. An unknown id is 404 and a stranger's request 403
      whatever its body; only the owner's or an admin's well-formed body
      reaches the controller. */
  method UpdatePostRoute(store: PostStore, user: User, id: string, body: PostBody,
                         schema: Post -> seq<string>, slugOf: Post -> string) returns (r: Reply<Post>)
    requires store.Valid()
    modifies store
    ensures store.Valid()
    ensures var d := AuthorizePostOwner(old(store.posts), id, user);
      && (d.NotFound? ==> r == Fail(NOT_FOUND, POST_NOT_FOUND) && store.posts == old(store.posts))
      && (d.Forbidden? ==> r == Fail(FORBIDDEN, NOT_AUTHORIZED) && store.posts == old(store.posts))
      && (d.Allow? && ValidatePostUpdate(body) != [] ==>
            r == Rejection(ValidatePostUpdate(body)) && store.posts == old(store.posts))
    ensures var d := AuthorizePostOwner(old(store.posts), id, user);
      d.Allow? && ValidatePostUpdate(body) == [] ==>
        var k := FindFirst(old(store.posts), (p: Post) => p.id == id).value;
        var saved := Saved(old(store.posts)[k], Sanitize(body), slugOf);
        if schema(saved) != [] then
          r == Fail(BAD_REQUEST, Join(schema(saved), ", ")) && store.posts == old(store.posts)
        else if KeyTaken(Without(old(store.posts), k), saved.id, saved.slug) then
          r == Fail(SERVER_ERROR, UPDATE_FAILED) && store.posts == old(store.posts)
        else
          r == Ok(OK, saved) && store.posts == old(store.posts)[k := saved]
  {
    var d := AuthorizePostOwner(store.posts, id, user);
    if !d.Allow? {
      r := PostGateReply(d);
      return;
    }
    var errors := ValidatePostUpdate(body);
    if errors != [] {
      return Rejection(errors);
    }
    r := store.UpdatePost(id, Sanitize(body), schema, slugOf);
  }

  /** `DELETE /api/posts/:id`: `authorizePostOwner`, then `deletePost`. */
  method DeletePostRoute(store: PostStore, user: User, id: string) returns (r: Reply<string>)
    requires store.Valid()
    modifies store
    ensures store.Valid()
    ensures var d := AuthorizePostOwner(old(store.posts), id, user);
      && (d.NotFound? ==> r == Fail(NOT_FOUND, POST_NOT_FOUND) && store.posts == old(store.posts))
      && (d.Forbidden? ==> r == Fail(FORBIDDEN, NOT_AUTHORIZED) && store.posts == old(store.posts))
      && (d.Allow? ==>
            var k := FindFirst(old(store.posts), (p: Post) => p.id == id).value;
            && r == Ok(OK, "Post deleted successfully")
            && store.posts == Without(old(store.posts), k)
            && MayModify(old(store.posts)[k].author, user))
  {
    var d := AuthorizePostOwner(store.posts, id, user);
    match d
    case NotFound => r := Fail(NOT_FOUND, POST_NOT_FOUND);
    case Forbidden => r := Fail(FORBIDDEN, NOT_AUTHORIZED);
    case ServerError => assert false;
    case Allow(_) => r := store.DeletePost(id);
  }

  /** `POST /api/posts/:id/comments`: `validateComment`, then `addComment`
      with the trimmed content; blank content never reaches the store. */
  method CommentRoute(store: PostStore, user: User, id: string, content: Option<string>, now: nat)
    returns (r: Reply<Post>)
    requires store.Valid()
    modifies store
    ensures store.Valid()
    ensures ValidateComment(content) != [] ==>
      r == Rejection(ValidateComment(content)) && store.posts == old(store.posts)
    ensures ValidateComment(content) == [] ==>
      && (FindFirst(old(store.posts), (p: Post) => p.id == id).None? ==>
            r == Fail(NOT_FOUND, POST_NOT_FOUND) && store.posts == old(store.posts))
      && (FindFirst(old(store.posts), (p: Post) => p.id == id).Some? ==>
            var k := FindFirst(old(store.posts), (p: Post) => p.id == id).value;
            var c := Comment(user.id, Trim(content.value), now);
            && 1 <= |c.content| <= 500
            && store.posts == old(store.posts)[k := AppendComment(old(store.posts)[k], c)]
            && r == Ok(CREATED, store.posts[k]))
  {
    var errors := ValidateComment(content);
    if errors != [] {
      return Rejection(errors);
    }
    r := store.AddComment(id, user.id, Trim(content.value), now);
  }

  /** `POST /api/posts`: `validatePost`, then `createPost` on the sanitized
      body, with the acting user as author. */
  method CreatePostRoute(store: PostStore, user: User, body: PostBody, id: string, slug: string, now: nat,
                         schema: Post -> seq<string>) returns (r: Reply<Post>)
    requires store.Valid()
    modifies store
    ensures store.Valid()
    ensures ValidatePost(body) != [] ==> r == Rejection(ValidatePost(body)) && store.posts == old(store.posts)
    ensures ValidatePost(body) == [] ==>
      var p := NewPost(Sanitize(body), user.id, id, slug, now);
      && p.title == Trim(body.title.value) && 1 <= |p.title| <= 100
      && p.content == Trim(body.content.value) && p.content != ""
      && IsMongoId(p.category)
      && (if schema(p) != [] then
            r == Fail(BAD_REQUEST, Join(schema(p), ", ")) && store.posts == old(store.posts)
          else if KeyTaken(old(store.posts), id, slug) then
            r == Fail(BAD_REQUEST, DUPLICATE_TITLE) && store.posts == old(store.posts)
          else
            r == Ok(CREATED, p) && store.posts == old(store.posts) + [p])
  {
    var errors := ValidatePost(body);
    if errors != [] {
      return Rejection(errors);
    }
    r := store.CreatePost(Sanitize(body), user.id, id, slug, now, schema);
  }
}
