/** The post controller over an in-memory post collection. Listing and
    search are pure queries; lookup (which bumps the view count), creation,
    update, deletion and commenting change the store. */
module PostController {
  import opened Common
  import opened Text
  import opened Seqs
  import Identity

  /** An embedded comment: who wrote it, what it says, when. */
  datatype Comment = Comment(user: string, content: string, createdAt: nat)

  datatype Post = Post(
    id: string,
    slug: string,
    title: string,
    content: string,
    excerpt: Option<string>,
    category: string,
    tags: seq<string>,
    featuredImage: string,
    isPublished: bool,
    viewCount: nat,
    author: string,
    comments: seq<Comment>,
    createdAt: nat)

  /** The body fields `createPost` and `updatePost` read; `None` is `undefined`. */
  datatype PostFields = PostFields(
    title: Option<string>,
    content: Option<string>,
    excerpt: Option<string>,
    category: Option<string>,
    tags: Option<seq<string>>,
    featuredImage: Option<string>,
    isPublished: Option<bool>)

  const DEFAULT_PAGE: nat := 1
  const DEFAULT_LIMIT: nat := 10
  const SEARCH_CAP: nat := 20
  const DEFAULT_IMAGE := "default-post.jpg"
  const POST_NOT_FOUND := "Post not found"
  const DUPLICATE_TITLE := "A post with this title already exists"
  const QUERY_REQUIRED := "Search query is required"
  const UPDATE_FAILED := "Server error while updating post"

  function PostId(p: Post): string { p.id }
  function PostSlug(p: Post): string { p.slug }

  // ---------------------------------------------------------------------
  // Listing

  /** `parseInt(param) || default`: a missing, non-numeric (`None`) or zero
      parameter falls back to the default. */
  function ParamOr(param: Option<nat>, default: nat): (r: nat)
    ensures param.Some? && param.value != 0 ==> r == param.value
    ensures param.None? || param.value == 0 ==> r == default
  {
    if param.Some? && param.value != 0 then param.value else default
  }

  /** The listing query: published, and in the category when one is given. */
  predicate IsListed(p: Post, category: Option<string>) {
    p.isPublished && (Truthy(category) ==> p.category == category.value)
  }

  /** `.sort({ createdAt: -1 })`. */
  predicate NewerOrSame(a: Post, b: Post) {
    a.createdAt >= b.createdAt
  }

  lemma NewerOrSameIsTotalPreorder()
    ensures TotalPreorder(NewerOrSame)
  {
  }

  /** Every match of the listing query, newest first. */
  function Matches(posts: seq<Post>, category: Option<string>): (r: seq<Post>)
    ensures |r| == |Filter(posts, p => IsListed(p, category))|
    ensures multiset(r) == multiset(Filter(posts, p => IsListed(p, category)))
    ensures forall i :: 0 <= i < |r| ==> IsListed(r[i], category) && r[i] in posts
    ensures Sorted(r, NewerOrSame)
  {
    NewerOrSameIsTotalPreorder();
    FilterSorted(posts, p => IsListed(p, category), NewerOrSame)
  }

  /** The matches are exactly the listed posts: each as many times as the
      collection holds it, and nothing else. */
  lemma MatchesAreExactlyListed(posts: seq<Post>, category: Option<string>)
    ensures forall p :: multiset(Matches(posts, category))[p]
                     == if IsListed(p, category) then multiset(posts)[p] else 0
  {
    FilterCounts(posts, p => IsListed(p, category));
  }

  /** The body of a `getAllPosts` reply. */
  datatype Listing = Listing(count: nat, total: nat, page: nat, totalPages: nat, posts: seq<Post>)

  /** `getAllPosts`: page and limit default to 1 and 10, the window starts
      after `(page - 1) * limit` matches, `count` is the window's size and
      `totalPages` is `ceil(total / limit)`. */
  function ListPosts(posts: seq<Post>, pageParam: Option<nat>, limitParam: Option<nat>, category: Option<string>): (r: Listing)
    ensures r.page == ParamOr(pageParam, DEFAULT_PAGE) && r.page >= 1
    ensures r.total == |Matches(posts, category)|
    ensures r.totalPages == CeilDiv(r.total, ParamOr(limitParam, DEFAULT_LIMIT))
    ensures r.posts == Page(Matches(posts, category), r.page, ParamOr(limitParam, DEFAULT_LIMIT))
    ensures r.count == |r.posts| <= ParamOr(limitParam, DEFAULT_LIMIT)
  {
    var page := ParamOr(pageParam, DEFAULT_PAGE);
    var limit := ParamOr(limitParam, DEFAULT_LIMIT);
    var m := Matches(posts, category);
    var window := Page(m, page, limit);
    Listing(|window|, |m|, page, CeilDiv(|m|, limit), window)
  }

  /** A listing holds only published posts of the requested category. */
  lemma ListedPostsQualify(posts: seq<Post>, pageParam: Option<nat>, limitParam: Option<nat>, category: Option<string>)
    ensures var r := ListPosts(posts, pageParam, limitParam, category);
      forall i :: 0 <= i < |r.posts| ==> IsListed(r.posts[i], category)
  {
    var page := ParamOr(pageParam, DEFAULT_PAGE);
    var limit := ParamOr(limitParam, DEFAULT_LIMIT);
    var m := Matches(posts, category);
    assert ListPosts(posts, pageParam, limitParam, category).posts == Page(m, page, limit);
    PagePreserves(m, page, limit, p => IsListed(p, category));
  }

  /** A listing is ordered newest first. */
  lemma ListedPostsNewestFirst(posts: seq<Post>, pageParam: Option<nat>, limitParam: Option<nat>, category: Option<string>)
    ensures var r := ListPosts(posts, pageParam, limitParam, category);
      forall i, j :: 0 <= i < j < |r.posts| ==> r.posts[i].createdAt >= r.posts[j].createdAt
  {
    var page := ParamOr(pageParam, DEFAULT_PAGE);
    var limit := ParamOr(limitParam, DEFAULT_LIMIT);
    var m := Matches(posts, category);
    var w := Page(m, page, limit);
    assert ListPosts(posts, pageParam, limitParam, category).posts == w;
    PageSorted(m, page, limit, NewerOrSame);
    assert Sorted(w, NewerOrSame);
  }

  /** `total` counts every match, whatever the page. */
  lemma TotalCountsEveryMatch(posts: seq<Post>, pageParam: Option<nat>, limitParam: Option<nat>, category: Option<string>)
    ensures ListPosts(posts, pageParam, limitParam, category).total
         == |Filter(posts, p => IsListed(p, category))|
  {
    var m := Filter(posts, p => IsListed(p, category));
    assert |SortBy(m, NewerOrSame)| == |m|;
  }

  /** Pages 1 to `k` of the listing, each fetched with its own request. */
  function ListedPages(posts: seq<Post>, limit: nat, category: Option<string>, k: nat): seq<Post> {
    if k == 0 then []
    else ListedPages(posts, limit, category, k - 1) + ListPosts(posts, Some(k), Some(limit), category).posts
  }

  /** Paging never repeats or omits a post: for a positive limit, the pages
      1..totalPages laid end to end are exactly the sorted matches. */
  lemma {:induction false} ListingPartition(posts: seq<Post>, limit: nat, category: Option<string>)
    requires limit > 0
    ensures var total := ListPosts(posts, Some(1), Some(limit), category).totalPages;
      ListedPages(posts, limit, category, total) == Matches(posts, category)
  {
    var m := Matches(posts, category);
    SamePages(posts, limit, category, CeilDiv(|m|, limit));
    PagesPartition(m, limit);
  }

  lemma {:induction false} SamePages(posts: seq<Post>, limit: nat, category: Option<string>, k: nat)
    requires limit > 0
    ensures ListedPages(posts, limit, category, k) == Pages(Matches(posts, category), limit, k)
  {
    if k > 0 {
      SamePages(posts, limit, category, k - 1);
      assert ParamOr(Some(k), DEFAULT_PAGE) == k && ParamOr(Some(limit), DEFAULT_LIMIT) == limit;
      assert ListPosts(posts, Some(k), Some(limit), category).posts == Page(Matches(posts, category), k, limit);
    }
  }

  /** A page past the end is an empty list, not an error. */
  lemma PastLastPageIsEmpty(posts: seq<Post>, page: nat, limit: nat, category: Option<string>)
    requires limit > 0
    requires page > ListPosts(posts, Some(1), Some(limit), category).totalPages
    ensures ListPosts(posts, Some(page), Some(limit), category).posts == []
    ensures ListPosts(posts, Some(page), Some(limit), category).count == 0
  {
    PagePastEndEmpty(Matches(posts, category), page, limit);
  }

  // ---------------------------------------------------------------------
  // Search

  /** The search query: published, title or content containing `q`, ignoring case. */
  predicate IsHit(p: Post, q: string) {
    p.isPublished && (ContainsIgnoreCase(p.title, q) || ContainsIgnoreCase(p.content, q))
  }

  /** Every hit of the search query, newest first. */
  function Hits(posts: seq<Post>, q: string): (r: seq<Post>)
    ensures |r| == |Filter(posts, p => IsHit(p, q))|
    ensures multiset(r) == multiset(Filter(posts, p => IsHit(p, q)))
    ensures forall i :: 0 <= i < |r| ==> IsHit(r[i], q) && r[i] in posts
    ensures Sorted(r, NewerOrSame)
  {
    NewerOrSameIsTotalPreorder();
    FilterSorted(posts, p => IsHit(p, q), NewerOrSame)
  }

  /** The hits are exactly the posts the search matches, each as many
      times as the collection holds it. */
  lemma HitsAreExactlyMatching(posts: seq<Post>, q: string)
    ensures forall p :: multiset(Hits(posts, q))[p]
                     == if IsHit(p, q) then multiset(posts)[p] else 0
  {
    FilterCounts(posts, p => IsHit(p, q));
  }

  /** `searchPosts`: a missing or empty `q` is a 400 answered before any
      query; otherwise the first 20 hits, newest first. */
  function SearchPosts(posts: seq<Post>, q: Option<string>): (r: Reply<seq<Post>>)
    ensures !Truthy(q) <==> r == Fail(BAD_REQUEST, QUERY_REQUIRED)
    ensures r.Fail? || r.Ok?
    ensures r.Ok? ==> r.status == OK && |r.value| == Min(SEARCH_CAP, |Filter(posts, p => IsHit(p, q.value))|)
    ensures r.Ok? ==> r.value == Hits(posts, q.value)[..|r.value|]
  {
    if !Truthy(q) then Fail(BAD_REQUEST, QUERY_REQUIRED)
    else
      var h := Hits(posts, q.value);
      Ok(OK, Window(h, 0, SEARCH_CAP))
  }

  /** Search answers only published hits, newest first, at most 20, and
      every hit when there are no more than 20. */
  lemma SearchResultsAreHits(posts: seq<Post>, q: string)
    requires q != ""
    ensures var r := SearchPosts(posts, Some(q));
      && r.Ok? && |r.value| <= SEARCH_CAP
      && (forall i :: 0 <= i < |r.value| ==> r.value[i] in posts && IsHit(r.value[i], q))
      && (forall i, j :: 0 <= i < j < |r.value| ==> r.value[i].createdAt >= r.value[j].createdAt)
      && (|Filter(posts, p => IsHit(p, q))| <= SEARCH_CAP ==>
            forall i :: 0 <= i < |posts| && IsHit(posts[i], q) ==> posts[i] in r.value)
  {
    var r := SearchPosts(posts, Some(q));
    var h := Hits(posts, q);
    assert r.value == h[..|r.value|];
    forall i, j | 0 <= i < j < |r.value|
      ensures r.value[i].createdAt >= r.value[j].createdAt
    {
      assert r.value[i] == h[i] && r.value[j] == h[j];
      assert NewerOrSame(h[i], h[j]);
    }
    if |h| <= SEARCH_CAP {
      assert r.value == h;
      forall i | 0 <= i < |posts| && IsHit(posts[i], q) ensures posts[i] in r.value {
        NewerOrSameIsTotalPreorder();
        FilterSortedComplete(posts, p => IsHit(p, q), NewerOrSame, posts[i]);
      }
    }
  }

  // ---------------------------------------------------------------------
  // Single-record operations

  /** The post model's `incrementViewCount` (not part of this model's
      sources): assumed to add one to the view count and nothing else. */
  function IncrementViewCount(p: Post): (r: Post)
    ensures r.viewCount == p.viewCount + 1
    ensures r.(viewCount := p.viewCount) == p
  {
    p.(viewCount := p.viewCount + 1)
  }

  /** The post model's `addComment(userId, content)` (not part of this
      model's sources): assumed to append one comment and change nothing else. */
  function AppendComment(p: Post, c: Comment): (r: Post)
    ensures |r.comments| == |p.comments| + 1 && r.comments[|p.comments|] == c
    ensures r.comments[..|p.comments|] == p.comments
    ensures r.(comments := p.comments) == p
  {
    p.(comments := p.comments + [c])
  }

  /** The record `createPost` hands to `Post.create`: the author is the
      acting user, a falsy image becomes the default, a falsy
      `isPublished` becomes false; id, slug and timestamp come from the store. */
  function NewPost(f: PostFields, author: string, id: string, slug: string, now: nat): (r: Post)
    ensures r.id == id && r.slug == slug && r.author == author && r.createdAt == now
    ensures r.featuredImage == if Truthy(f.featuredImage) then f.featuredImage.value else DEFAULT_IMAGE
    ensures r.isPublished <==> f.isPublished == Some(true)
    ensures r.viewCount == 0 && r.comments == []
    ensures r.excerpt == f.excerpt
    // the posted fields, passed through as sent
    ensures r.title == f.title.GetOr("") && r.content == f.content.GetOr("")
    ensures r.category == f.category.GetOr("") && r.tags == f.tags.GetOr([])
  {
    Post(
      id := id,
      slug := slug,
      title := f.title.GetOr(""),
      content := f.content.GetOr(""),
      excerpt := f.excerpt,
      category := f.category.GetOr(""),
      tags := f.tags.GetOr([]),
      featuredImage := if Truthy(f.featuredImage) then f.featuredImage.value else DEFAULT_IMAGE,
      isPublished := f.isPublished.GetOr(false),
      viewCount := 0,
      author := author,
      comments := [],
      createdAt := now)
  }

  /** The assignments `updatePost` makes: title, content, category, tags and
      image only when truthy; excerpt and isPublished whenever defined. */
  function ApplyPatch(p: Post, f: PostFields): (r: Post)
    ensures r.title == if Truthy(f.title) then f.title.value else p.title
    ensures r.content == if Truthy(f.content) then f.content.value else p.content
    ensures r.category == if Truthy(f.category) then f.category.value else p.category
    ensures r.featuredImage == if Truthy(f.featuredImage) then f.featuredImage.value else p.featuredImage
    ensures r.tags == if f.tags.Some? then f.tags.value else p.tags
    ensures r.excerpt == if f.excerpt.Some? then f.excerpt else p.excerpt
    ensures r.isPublished == if f.isPublished.Some? then f.isPublished.value else p.isPublished
    // never assigned by the controller
    ensures r.id == p.id && r.slug == p.slug && r.author == p.author
    ensures r.viewCount == p.viewCount && r.comments == p.comments && r.createdAt == p.createdAt
  {
    var title, content, category, image :=
      TruthyOr(f.title, p.title), TruthyOr(f.content, p.content),
      TruthyOr(f.category, p.category), TruthyOr(f.featuredImage, p.featuredImage);
    var excerpt := if f.excerpt.Some? then f.excerpt else p.excerpt;
    Post(p.id, p.slug, title, content, excerpt, category, f.tags.GetOr(p.tags), image,
         f.isPublished.GetOr(p.isPublished), p.viewCount, p.author, p.comments, p.createdAt)
  }

  /** `if (v) field = v`: the new value when truthy, the current one otherwise. */
  function TruthyOr(v: Option<string>, current: string): (r: string)
    ensures Truthy(v) ==> r == v.value
    ensures !Truthy(v) ==> r == current
  {
    if Truthy(v) then v.value else current
  }

  /** What `post.save()` stores after `updatePost`'s assignments: the patched
      post, carrying the slug the post model's save hooks leave on it
      (`slugOf`, since the post model is not part of this model). */
  function Saved(p: Post, f: PostFields, slugOf: Post -> string): (r: Post)
    ensures r.slug == slugOf(ApplyPatch(p, f))
    ensures r.(slug := p.slug) == ApplyPatch(p, f)
    ensures r.id == p.id
  {
    ApplyPatch(p, f).(slug := slugOf(ApplyPatch(p, f)))
  }

  /** Applying the same update twice is applying it once. */
  lemma PatchIdempotent(p: Post, f: PostFields)
    ensures ApplyPatch(ApplyPatch(p, f), f) == ApplyPatch(p, f)
  {
  }

  /** An update whose fields are all absent or falsy-and-ignored changes nothing. */
  lemma EmptyPatchIsIdentity(p: Post, f: PostFields)
    requires !Truthy(f.title) && !Truthy(f.content) && !Truthy(f.category) && !Truthy(f.featuredImage)
    requires f.tags.None? && f.excerpt.None? && f.isPublished.None?
    ensures ApplyPatch(p, f) == p
  {
  }

  /** No two posts share an id, and (by the post model's unique index) no
      two share a slug. */
  ghost predicate UniqueKeys(posts: seq<Post>) {
    forall i, j :: 0 <= i < j < |posts| ==> posts[i].id != posts[j].id && posts[i].slug != posts[j].slug
  }

  predicate KeyTaken(posts: seq<Post>, id: string, slug: string) {
    exists i :: 0 <= i < |posts| && (posts[i].id == id || posts[i].slug == slug)
  }

  /** A post that was created can be looked up again by its id. */
  lemma CreatedPostResolves(posts: seq<Post>, p: Post)
    requires UniqueKeys(posts) && !KeyTaken(posts, p.id, p.slug)
    ensures UniqueKeys(posts + [p])
    ensures Identity.Resolve(posts + [p], PostId, PostSlug, p.id) == Some(|posts|)
  {
    var s := posts + [p];
    assert forall j :: 0 <= j < |posts| ==> s[j].id != p.id;
    assert PostId(s[|posts|]) == p.id;
  }

  /** Removing the `k`-th post keeps the keys unique and leaves no other
      post with its id. */
  lemma RemoveKeepsKeysUnique(posts: seq<Post>, k: nat)
    requires UniqueKeys(posts) && k < |posts|
    ensures UniqueKeys(Without(posts, k))
    ensures forall i :: 0 <= i < |Without(posts, k)| ==> Without(posts, k)[i].id != posts[k].id
  {
    var r := Without(posts, k);
    forall i, j | 0 <= i < j < |r| ensures r[i].id != r[j].id && r[i].slug != r[j].slug {
      var i', j' := if i < k then i else i + 1, if j < k then j else j + 1;
      assert r[i] == posts[i'] && r[j] == posts[j'];
    }
    forall i | 0 <= i < |r| ensures r[i].id != posts[k].id {
      var i' := if i < k then i else i + 1;
      assert r[i] == posts[i'];
    }
  }

  /** Replacing the `k`-th post by one whose id and slug no other post
      holds keeps every key unique. */
  lemma ReplaceKeepsKeysUnique(posts: seq<Post>, k: nat, q: Post)
    requires UniqueKeys(posts) && k < |posts|
    requires !KeyTaken(Without(posts, k), q.id, q.slug)
    ensures UniqueKeys(posts[k := q])
  {
    var others := Without(posts, k);
    var t := posts[k := q];
    forall i, j | 0 <= i < j < |t| ensures t[i].id != t[j].id && t[i].slug != t[j].slug {
      if i == k {
        assert t[j] == others[j - 1];
      } else if j == k {
        assert t[i] == others[i];
      }
    }
  }

  /** A save that keeps the post's slug collides with no other post. */
  lemma KeptSlugNeverCollides(posts: seq<Post>, k: nat, f: PostFields, slugOf: Post -> string)
    requires UniqueKeys(posts) && k < |posts|
    requires slugOf(ApplyPatch(posts[k], f)) == posts[k].slug
    ensures !KeyTaken(Without(posts, k), Saved(posts[k], f, slugOf).id, Saved(posts[k], f, slugOf).slug)
  {
    var others := Without(posts, k);
    var q := Saved(posts[k], f, slugOf);
    forall i | 0 <= i < |others| ensures others[i].id != q.id && others[i].slug != q.slug {
      if i < k {
        assert others[i] == posts[i];
      } else {
        assert others[i] == posts[i + 1];
      }
    }
  }

  /** The post collection. */
  class PostStore {
    var posts: seq<Post>

    ghost predicate Valid()
      reads this
    {
      UniqueKeys(posts)
    }

    constructor ()
      ensures Valid() && posts == []
    {
      posts := [];
    }

    /** `getPost`: id first, slug on a miss, 404 when both miss; a hit bumps
        that post's view count by one and replies with it. */
    method GetPost(token: string) returns (r: Reply<Post>)
      requires Valid()
      modifies this
      ensures Valid()
      ensures Identity.Resolve(old(posts), PostId, PostSlug, token).None? ==>
        r == Fail(NOT_FOUND, POST_NOT_FOUND) && posts == old(posts)
      ensures Identity.Resolve(old(posts), PostId, PostSlug, token).Some? ==>
        var k := Identity.Resolve(old(posts), PostId, PostSlug, token).value;
        && posts == old(posts)[k := IncrementViewCount(old(posts)[k])]
        && r == Ok(OK, posts[k])
    {
      var k := Identity.Resolve(posts, PostId, PostSlug, token);
      if k.None? {
        return Fail(NOT_FOUND, POST_NOT_FOUND);
      }
      var p := IncrementViewCount(posts[k.value]);
      posts := posts[k.value := p];
      r := Ok(OK, p);
    }

    /** `createPost`: a schema failure answers 400 with the messages joined
        by ", "; a taken id or slug answers 400 "A post with this title
        already exists"; otherwise the new post is stored and returned. */
    method CreatePost(f: PostFields, author: string, id: string, slug: string, now: nat,
                      schema: Post -> seq<string>) returns (r: Reply<Post>)
      requires Valid()
      modifies this
      ensures Valid()
      ensures var p := NewPost(f, author, id, slug, now);
        if schema(p) != [] then
          r == Fail(BAD_REQUEST, Join(schema(p), ", ")) && posts == old(posts)
        else if KeyTaken(old(posts), id, slug) then
          r == Fail(BAD_REQUEST, DUPLICATE_TITLE) && posts == old(posts)
        else
          r == Ok(CREATED, p) && posts == old(posts) + [p]
    {
      var p := NewPost(f, author, id, slug, now);
      var errors := schema(p);
      if errors != [] {
        return Fail(BAD_REQUEST, Join(errors, ", "));
      }
      if KeyTaken(posts, id, slug) {
        return Fail(BAD_REQUEST, DUPLICATE_TITLE);
      }
      CreatedPostResolves(posts, p);
      posts := posts + [p];
      r := Ok(CREATED, p);
    }

    /** `updatePost`: 404 for an unknown id; otherwise the saved post, a
        400 with the schema's messages when it rejects it, or a 500 when its
        slug is another post's (the duplicate key has no handler of its own
        here); every failure leaves the store unchanged. */
    method UpdatePost(id: string, f: PostFields, schema: Post -> seq<string>, slugOf: Post -> string)
      returns (r: Reply<Post>)
      requires Valid()
      modifies this
      ensures Valid()
      ensures FindFirst(old(posts), (p: Post) => p.id == id).None? ==>
        r == Fail(NOT_FOUND, POST_NOT_FOUND) && posts == old(posts)
      ensures FindFirst(old(posts), (p: Post) => p.id == id).Some? ==>
        var k := FindFirst(old(posts), (p: Post) => p.id == id).value;
        var saved := Saved(old(posts)[k], f, slugOf);
        if schema(saved) != [] then
          r == Fail(BAD_REQUEST, Join(schema(saved), ", ")) && posts == old(posts)
        else if KeyTaken(Without(old(posts), k), saved.id, saved.slug) then
          r == Fail(SERVER_ERROR, UPDATE_FAILED) && posts == old(posts)
        else
          r == Ok(OK, saved) && posts == old(posts)[k := saved]
    {
      var k := FindFirst(posts, (p: Post) => p.id == id);
      if k.None? {
        return Fail(NOT_FOUND, POST_NOT_FOUND);
      }
      var saved := Saved(posts[k.value], f, slugOf);
      var errors := schema(saved);
      if errors != [] {
        return Fail(BAD_REQUEST, Join(errors, ", "));
      }
      if KeyTaken(Without(posts, k.value), saved.id, saved.slug) {
        return Fail(SERVER_ERROR, UPDATE_FAILED);
      }
      ReplaceKeepsKeysUnique(posts, k.value, saved);
      posts := posts[k.value := saved];
      r := Ok(OK, saved);
    }

    /** `deletePost`: 404 and no change for an unknown id; otherwise exactly
        that post is removed. */
    method DeletePost(id: string) returns (r: Reply<string>)
      requires Valid()
      modifies this
      ensures Valid()
      ensures FindFirst(old(posts), (p: Post) => p.id == id).None? ==>
        r == Fail(NOT_FOUND, POST_NOT_FOUND) && posts == old(posts)
      ensures FindFirst(old(posts), (p: Post) => p.id == id).Some? ==>
        var k := FindFirst(old(posts), (p: Post) => p.id == id).value;
        && r == Ok(OK, "Post deleted successfully")
        && posts == Without(old(posts), k)
        && multiset(posts) + multiset{old(posts)[k]} == multiset(old(posts))
        && forall i :: 0 <= i < |posts| ==> posts[i].id != id
    {
      var k := FindFirst(posts, (p: Post) => p.id == id);
      if k.None? {
        return Fail(NOT_FOUND, POST_NOT_FOUND);
      }
      var i := k.value;
      RemoveKeepsKeysUnique(posts, i);
      posts := Without(posts, i);
      r := Ok(OK, "Post deleted successfully");
    }

    /** `addComment`: 404 and no change for an unknown id; otherwise the
        acting user's comment is appended to that post. */
    method AddComment(id: string, user: string, content: string, now: nat) returns (r: Reply<Post>)
      requires Valid()
      modifies this
      ensures Valid()
      ensures FindFirst(old(posts), (p: Post) => p.id == id).None? ==>
        r == Fail(NOT_FOUND, POST_NOT_FOUND) && posts == old(posts)
      ensures FindFirst(old(posts), (p: Post) => p.id == id).Some? ==>
        var k := FindFirst(old(posts), (p: Post) => p.id == id).value;
        && posts == old(posts)[k := AppendComment(old(posts)[k], Comment(user, content, now))]
        && r == Ok(CREATED, posts[k])
    {
      var k := FindFirst(posts, (p: Post) => p.id == id);
      if k.None? {
        return Fail(NOT_FOUND, POST_NOT_FOUND);
      }
      var p := AppendComment(posts[k.value], Comment(user, content, now));
      posts := posts[k.value := p];
      r := Ok(CREATED, p);
    }
  }
}
