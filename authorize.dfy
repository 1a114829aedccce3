/** The ownership gate that runs before post updates and deletions: the
    target must exist (404), and the acting user must own it or be an
    admin (403); otherwise the request proceeds with the fetched record. */
module Authorize {
  import opened Common
  import opened Seqs
  import opened PostController

  /** The authenticated principal the `protect` middleware attaches. */
  datatype User = User(id: string, role: string)

  /** The gate's outcome: answer 404, 403 or 500, or call `next()` with the record. */
  datatype Decision<T> = NotFound | Forbidden | ServerError | Allow(target: T)

  const ADMIN := "admin"
  const NOT_AUTHORIZED := "Not authorized to perform this action"

  /** The ownership rule shared by both gates. */
  predicate MayModify(ownerId: string, user: User) {
    ownerId == user.id || user.role == ADMIN
  }

  /** `authorizePostOwner`: look the post up by id; 404 when absent, 403
      unless the user is its author or an admin, else allow with that post. */
  function AuthorizePostOwner(posts: seq<Post>, id: string, user: User): (d: Decision<Post>)
    ensures d.NotFound? <==> forall j :: 0 <= j < |posts| ==> posts[j].id != id
    ensures d.Forbidden? <==>
      exists j :: 0 <= j < |posts| && posts[j].id == id && !MayModify(posts[j].author, user)
        && forall k :: 0 <= k < j ==> posts[k].id != id
    ensures d.Allow? ==> d.target in posts && d.target.id == id && MayModify(d.target.author, user)
    ensures !d.ServerError?
  {
    match FindFirst(posts, (p: Post) => p.id == id)
    case None => NotFound
    case Some(k) => if !MayModify(posts[k].author, user) then Forbidden else Allow(posts[k])
  }

  /** In a store with unique ids the gate decides on the one post with that
      id: allowed iff that post's author is the user or the user is an admin,
      forbidden otherwise, and the allowed record is that very post. */
  lemma PostGateDecides(posts: seq<Post>, id: string, user: User, k: nat)
    requires UniqueKeys(posts)
    requires k < |posts| && posts[k].id == id
    ensures var d := AuthorizePostOwner(posts, id, user);
      && (d.Allow? <==> MayModify(posts[k].author, user))
      && (d.Forbidden? <==> !MayModify(posts[k].author, user))
      && (d.Allow? ==> d.target == posts[k])
  {
    var f := FindFirst(posts, (p: Post) => p.id == id);
    assert f.Some? && f.value <= k;
    assert posts[f.value].id == posts[k].id;
  }

  /** How the gate's decision is answered. */
  function PostGateReply(d: Decision<Post>): (r: Reply<Post>)
    ensures d.NotFound? ==> r == Fail(NOT_FOUND, POST_NOT_FOUND)
    ensures d.Forbidden? ==> r == Fail(FORBIDDEN, NOT_AUTHORIZED)
    ensures d.ServerError? ==> r == Fail(SERVER_ERROR, "Server error")
    ensures d.Allow? ==> r.Ok? && r.value == d.target
  {
    match d
    case NotFound => Fail(NOT_FOUND, POST_NOT_FOUND)
    case Forbidden => Fail(FORBIDDEN, NOT_AUTHORIZED)
    case ServerError => Fail(SERVER_ERROR, "Server error")
    case Allow(p) => Ok(OK, p)
  }

  /** A record seen by the generic gate: it may carry an `author`, a `user`,
      both or neither. */
  datatype Resource = Resource(id: string, author: Option<string>, user: Option<string>)

  /** `resource.author || resource.user`: an absent or empty author falls
      back to the user field, whatever that holds. */
  function OwnerOf(r: Resource): (o: Option<string>)
    ensures Truthy(r.author) ==> o == r.author
    ensures !Truthy(r.author) ==> o == r.user
    ensures o.None? <==> !Truthy(r.author) && r.user.None?
  {
    if Truthy(r.author) then r.author else r.user
  }

  /** `findById`'s pick: record `j` is the first with that id. */
  predicate FirstWithId(resources: seq<Resource>, id: string, j: int) {
    && 0 <= j < |resources| && resources[j].id == id
    && forall k :: 0 <= k < j ==> resources[k].id != id
  }

  /** The generic `authorize(model)` gate: 404 when the id is unknown, 500
      when the record has no owner field (`toString` of `undefined` throws),
      403 unless owner or admin, else allow. */
  function AuthorizeResource(resources: seq<Resource>, id: string, user: User): (d: Decision<Resource>)
    ensures d.NotFound? <==> forall j :: 0 <= j < |resources| ==> resources[j].id != id
    ensures d.ServerError? <==>
      exists j :: FirstWithId(resources, id, j) && OwnerOf(resources[j]).None?
    ensures d.Forbidden? <==>
      exists j :: FirstWithId(resources, id, j)
        && OwnerOf(resources[j]).Some? && !MayModify(OwnerOf(resources[j]).value, user)
    ensures d.Allow? <==>
      exists j :: FirstWithId(resources, id, j)
        && OwnerOf(resources[j]).Some? && MayModify(OwnerOf(resources[j]).value, user)
    ensures d.Allow? ==>
      exists j :: FirstWithId(resources, id, j) && d.target == resources[j]
  {
    match FindFirst(resources, (x: Resource) => x.id == id)
    case None => NotFound
    case Some(k) =>
      var owner := OwnerOf(resources[k]);
      if owner.None? then ServerError
      else if !MayModify(owner.value, user) then Forbidden
      else Allow(resources[k])
  }

  /** How the generic gate's decision is answered. */
  function ResourceGateReply(d: Decision<Resource>): (r: Reply<Resource>)
    ensures d.NotFound? ==> r == Fail(NOT_FOUND, "Resource not found")
    ensures d.Forbidden? ==> r == Fail(FORBIDDEN, NOT_AUTHORIZED)
    ensures d.ServerError? ==> r == Fail(SERVER_ERROR, "Server error")
    ensures d.Allow? ==> r.Ok? && r.value == d.target
  {
    match d
    case NotFound => Fail(NOT_FOUND, "Resource not found")
    case Forbidden => Fail(FORBIDDEN, NOT_AUTHORIZED)
    case ServerError => Fail(SERVER_ERROR, "Server error")
    case Allow(x) => Ok(OK, x)
  }

  /** A post seen by the generic gate: its owner field is `author`. */
  function AsResource(p: Post): Resource {
    Resource(p.id, Some(p.author), None)
  }

  function AsResources(posts: seq<Post>): (rs: seq<Resource>)
    ensures |rs| == |posts|
    ensures forall i :: 0 <= i < |posts| ==> rs[i] == AsResource(posts[i])
  {
    seq(|posts|, i requires 0 <= i < |posts| => AsResource(posts[i]))
  }

  /** The post gate is the generic gate applied to posts: both reach the same
      verdict, and allow the same record, as long as authors are non-empty
      (an `author` is a reference to a user, so a stored one never is). */
  lemma PostGateIsGenericGate(posts: seq<Post>, id: string, user: User)
    requires forall j :: 0 <= j < |posts| ==> posts[j].author != ""
    ensures var d := AuthorizePostOwner(posts, id, user);
      var g := AuthorizeResource(AsResources(posts), id, user);
      && (d.NotFound? <==> g.NotFound?)
      && (d.Forbidden? <==> g.Forbidden?)
      && (d.Allow? <==> g.Allow?)
      && (d.Allow? ==> g.target == AsResource(d.target))
      && !g.ServerError?
  {
    var rs := AsResources(posts);
    var f := FindFirst(posts, (p: Post) => p.id == id);
    var h := FindFirst(rs, (x: Resource) => x.id == id);
    if f.None? {
      assert h.None?;
    } else {
      assert rs[f.value].id == id;
      assert h.Some? && h.value <= f.value;
      assert posts[h.value].id == id;
      assert h.value == f.value;
    }
  }

  /** An empty author is falsy, so the generic gate takes the owner from
      `user`: the user field's owner is allowed. */
  lemma EmptyAuthorFallsBackToUser()
    ensures AuthorizeResource([Resource("x", Some(""), Some("u1"))], "x", User("u1", "user")).Allow?
  {
    assert FirstWithId([Resource("x", Some(""), Some("u1"))], "x", 0);
  }

  /** With an empty author and no user field the owner is `undefined`, and
      its `toString()` throws: a server error. */
  lemma EmptyAuthorWithoutUserErrs()
    ensures AuthorizeResource([Resource("x", Some(""), None)], "x", User("u1", "user")).ServerError?
  {
    assert FirstWithId([Resource("x", Some(""), None)], "x", 0);
  }

  /** Where the two gates part: on a post with an empty author the post gate
      compares the empty string and refuses a non-admin, while the generic
      gate finds no owner and errs. */
  lemma GatesPartOnEmptyAuthor(p: Post, user: User)
    requires p.author == "" && user.id != "" && user.role != ADMIN
    ensures AuthorizePostOwner([p], p.id, user).Forbidden?
    ensures AuthorizeResource(AsResources([p]), p.id, user).ServerError?
  {
    assert FirstWithId(AsResources([p]), p.id, 0);
  }
}
