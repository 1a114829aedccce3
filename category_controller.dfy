/** The category endpoints over an in-memory collection: listing by name,
    lookup by id or slug, and create, update and delete, each answering with
    a status code and either the category or an error message. Saving goes
    through the schema of `CategoryModel` with the slug hook run before the
    constraints are checked. */
module CategoryController {
  import opened Common
  import opened Text
  import opened Seqs
  import opened CategoryModel
  import Identity

  const CATEGORY_NOT_FOUND := "Category not found"
  const CATEGORY_EXISTS := "Category already exists"
  const DUPLICATE_NAME := "A category with this name already exists"
  const UPDATE_FAILED := "Server error while updating category"
  const CATEGORY_DELETED := "Category deleted successfully"

  function CategoryId(c: Category): string { c.id }
  function CategorySlug(c: Category): string { c.slug }

  /** The order of `sort({ name: 1 })`. */
  predicate NameLe(a: Category, b: Category) {
    LexLe(a.name, b.name)
  }

  lemma NameOrderIsTotalPreorder()
    ensures TotalPreorder(NameLe)
  {
    forall a: Category, b: Category
      ensures NameLe(a, b) || NameLe(b, a)
    {
      LexLeTotal(a.name, b.name);
    }
    forall a: Category, b: Category, c: Category | NameLe(a, b) && NameLe(b, c)
      ensures NameLe(a, c)
    {
      LexLeTransitive(a.name, b.name, c.name);
    }
  }

  /** `getAllCategories`: every category, in ascending order of name. */
  function ListCategories(cs: seq<Category>): (r: Reply<seq<Category>>)
    ensures r.Ok? && r.status == OK
    ensures multiset(r.value) == multiset(cs)
    ensures Sorted(r.value, NameLe)
  {
    NameOrderIsTotalPreorder();
    SortBySorted(cs, NameLe);
    Ok(OK, SortBy(cs, NameLe))
  }

  /** With unique names the listing is strictly increasing by name. */
  lemma ListingStrictlyIncreasing(cs: seq<Category>)
    requires forall i, j :: 0 <= i < j < |cs| ==> cs[i].name != cs[j].name
    ensures var l := ListCategories(cs).value;
      forall i, j :: 0 <= i < j < |l| ==> LexLe(l[i].name, l[j].name) && l[i].name != l[j].name
  {
    var l := ListCategories(cs).value;
    forall i, j | 0 <= i < j < |l|
      ensures LexLe(l[i].name, l[j].name) && l[i].name != l[j].name
    {
      assert NameLe(l[i], l[j]);
      DistinctInPermutation(cs, l, i, j);
    }
  }

  /** Two positions of a permutation of a sequence with unique names hold
      different names. */
  lemma DistinctInPermutation(cs: seq<Category>, l: seq<Category>, i: nat, j: nat)
    requires forall a, b :: 0 <= a < b < |cs| ==> cs[a].name != cs[b].name
    requires multiset(l) == multiset(cs)
    requires i < j < |l|
    ensures l[i].name != l[j].name
  {
    if l[i].name == l[j].name {
      assert l[i] in multiset(cs) && l[j] in multiset(cs);
      var a :| 0 <= a < |cs| && cs[a] == l[i];
      var b :| 0 <= b < |cs| && cs[b] == l[j];
      if a == b {
        assert l == l[..i] + [l[i]] + l[i + 1..j] + [l[j]] + l[j + 1..];
        OnlyOnce(cs, a);
        assert false;
      } else {
        assert false;
      }
    }
  }

  /** A record whose name appears nowhere else occurs exactly once. */
  lemma OnlyOnce(cs: seq<Category>, a: nat)
    requires forall x, y :: 0 <= x < y < |cs| ==> cs[x].name != cs[y].name
    requires a < |cs|
    ensures multiset(cs)[cs[a]] == 1
  {
    var x := cs[a];
    forall i | 0 <= i < |cs| && i != a
      ensures cs[i] != x
    {
      if i < a {
        assert cs[i].name != cs[a].name;
      } else {
        assert cs[a].name != cs[i].name;
      }
    }
    assert cs == cs[..a] + [x] + cs[a + 1..];
    assert x !in cs[..a];
    assert x !in cs[a + 1..];
  }

  /** `getCategory`: the category whose id is the token, else the one whose
      slug is, else 404. */
  function GetCategory(cs: seq<Category>, token: string): (r: Reply<Category>)
    ensures r.Fail? <==> forall j :: 0 <= j < |cs| ==> cs[j].id != token && cs[j].slug != token
    ensures r.Fail? ==> r == Fail(NOT_FOUND, CATEGORY_NOT_FOUND)
    ensures r.Ok? ==> r.status == OK && r.value in cs && (r.value.id == token || r.value.slug == token)
    ensures (exists j :: 0 <= j < |cs| && cs[j].id == token) ==> r.Ok? && r.value.id == token
    ensures !r.Invalid?
  {
    match Identity.Resolve(cs, CategoryId, CategorySlug, token)
    case None => Fail(NOT_FOUND, CATEGORY_NOT_FOUND)
    case Some(k) => Ok(OK, cs[k])
  }

  /** No two stored categories share an id, a name or a slug. */
  ghost predicate UniqueCategoryKeys(cs: seq<Category>) {
    forall i, j :: 0 <= i < j < |cs| ==>
      cs[i].id != cs[j].id && cs[i].name != cs[j].name && cs[i].slug != cs[j].slug
  }

  /** A stored category satisfies the schema and carries its name's slug. */
  ghost predicate WellFormed(c: Category) {
    SchemaErrors(Draft(c.name, c.description, Some(c.slug))) == [] && c.slug == Slugify(c.name)
  }

  /** A category created now is found by its id. */
  lemma CreatedCategoryResolves(cs: seq<Category>, c: Category)
    requires !Collides(cs, c)
    ensures GetCategory(cs + [c], c.id) == Ok(OK, c)
  {
    var s := cs + [c];
    assert s[|cs|].id == c.id;
    var r := GetCategory(s, c.id);
    assert r.Ok? && r.value.id == c.id;
    assert r.value in s;
    var j :| 0 <= j < |s| && s[j] == r.value;
    if j < |cs| {
      assert false;
    }
  }

  /** Replacing the `k`-th category by one that collides with none of the
      others keeps every key unique. */
  lemma ReplaceKeepsKeysUnique(cs: seq<Category>, k: nat, c: Category)
    requires UniqueCategoryKeys(cs) && k < |cs|
    requires !Collides(Without(cs, k), c)
    ensures UniqueCategoryKeys(cs[k := c])
  {
    var others := Without(cs, k);
    var t := cs[k := c];
    forall i, j | 0 <= i < j < |t|
      ensures t[i].id != t[j].id && t[i].name != t[j].name && t[i].slug != t[j].slug
    {
      if i == k {
        assert t[j] == others[j - 1];
      } else if j == k {
        assert t[i] == others[i];
      }
    }
  }

  /** The name after `if (name) category.name = name`, trimmed as the
      schema's `trim` setter does, and whether the path is then modified
      (Mongoose marks it only when the value changes). */
  function Rename(current: Category, name: Option<string>): (r: (string, bool))
    ensures Truthy(name) ==> r.0 == Trim(name.value)
    ensures !Truthy(name) ==> r.0 == current.name
    ensures r.1 <==> r.0 != current.name
  {
    var n := if Truthy(name) then Trim(name.value) else current.name;
    (n, n != current.name)
  }

  /** The description after `if (description !== undefined)`. */
  function Redescribe(current: Category, description: Option<string>): (r: Option<string>)
    ensures description.Some? ==> r == description
    ensures description.None? ==> r == current.description
  {
    if description.Some? then description else current.description
  }

  /** `findOne({ name })` finds a category. */
  predicate NameTaken(cs: seq<Category>, name: string) {
    exists j :: 0 <= j < |cs| && cs[j].name == name
  }

  /** What every state of the collection satisfies. */
  ghost predicate ValidStore(cs: seq<Category>) {
    && UniqueCategoryKeys(cs)
    && forall i :: 0 <= i < |cs| ==> WellFormed(cs[i])
  }

  /** A category `Save` stores is well formed, provided an unchanged name
      arrives with its own slug. */
  lemma SavedIsWellFormed(d: Draft, nameModified: bool, id: string, others: seq<Category>)
    requires Save(d, nameModified, id, others).Saved?
    requires !nameModified ==> d.slug == Some(Slugify(d.name))
    ensures WellFormed(Save(d, nameModified, id, others).category)
    ensures !Collides(others, Save(d, nameModified, id, others).category)
  {
    SavedSatisfiesSchema(d, nameModified, id, others);
  }

  /** Removing a category keeps the collection valid, and leaves no other
      category with its id. */
  lemma RemoveKeepsValid(cs: seq<Category>, k: nat)
    requires ValidStore(cs) && k < |cs|
    ensures ValidStore(Without(cs, k))
    ensures forall i :: 0 <= i < |Without(cs, k)| ==> Without(cs, k)[i].id != cs[k].id
  {
    RemoveKeepsKeysUnique(cs, k);
    RemoveKeepsWellFormed(cs, k);
  }

  lemma RemoveKeepsKeysUnique(cs: seq<Category>, k: nat)
    requires UniqueCategoryKeys(cs) && k < |cs|
    ensures UniqueCategoryKeys(Without(cs, k))
    ensures forall i :: 0 <= i < |Without(cs, k)| ==> Without(cs, k)[i].id != cs[k].id
  {
    var r := Without(cs, k);
    forall i | 0 <= i < |r| ensures r[i].id != cs[k].id {
      if i >= k {
        assert r[i] == cs[i + 1];
      }
    }
    forall i, j | 0 <= i < j < |r|
      ensures r[i].id != r[j].id && r[i].name != r[j].name && r[i].slug != r[j].slug
    {
      var i', j' := if i < k then i else i + 1, if j < k then j else j + 1;
      assert r[i] == cs[i'] && r[j] == cs[j'];
    }
  }

  lemma RemoveKeepsWellFormed(cs: seq<Category>, k: nat)
    requires k < |cs|
    requires forall i :: 0 <= i < |cs| ==> WellFormed(cs[i])
    ensures forall i :: 0 <= i < |Without(cs, k)| ==> WellFormed(Without(cs, k)[i])
  {
    var r := Without(cs, k);
    forall i | 0 <= i < |r| ensures WellFormed(r[i]) {
      var i' := if i < k then i else i + 1;
      assert r[i] == cs[i'];
    }
  }

  /** Adding a well-formed category that collides with none keeps the
      collection valid. */
  lemma AddKeepsValid(cs: seq<Category>, c: Category)
    requires ValidStore(cs) && WellFormed(c) && !Collides(cs, c)
    ensures ValidStore(cs + [c])
  {
  }

  /** Replacing a category by a well-formed one that collides with none of
      the others keeps the collection valid. */
  lemma ReplaceKeepsValid(cs: seq<Category>, k: nat, c: Category)
    requires ValidStore(cs) && k < |cs| && WellFormed(c)
    requires !Collides(Without(cs, k), c)
    ensures ValidStore(cs[k := c])
  {
    ReplaceKeepsKeysUnique(cs, k, c);
  }

  class CategoryStore {
    var categories: seq<Category>

    ghost predicate Valid()
      reads this
    {
      ValidStore(categories)
    }

    constructor ()
      ensures Valid() && categories == []
    {
      categories := [];
    }

    /** `createCategory`: 400 "Category already exists" when the (trimmed)
        name is taken; otherwise the category is saved from its name and
        description alone, and a schema failure answers 400 with the
        messages joined by ", ", a unique-index clash 400 "A category with
        this name already exists", and success 201 with the new category. */
    method CreateCategory(name: string, description: Option<string>, newId: string) returns (r: Reply<Category>)
      requires Valid()
      modifies this
      ensures Valid()
      ensures NameTaken(old(categories), Trim(name)) ==>
        r == Fail(BAD_REQUEST, CATEGORY_EXISTS) && categories == old(categories)
      ensures !NameTaken(old(categories), Trim(name)) ==>
        match Save(Draft(Trim(name), description, None), true, newId, old(categories))
        case ValidationFailed(ms) => r == Fail(BAD_REQUEST, Join(ms, ", ")) && categories == old(categories)
        case DuplicateKey => r == Fail(BAD_REQUEST, DUPLICATE_NAME) && categories == old(categories)
        case Saved(c) => r == Ok(CREATED, c) && categories == old(categories) + [c]
    {
      var n := Trim(name);
      if NameTaken(categories, n) {
        return Fail(BAD_REQUEST, CATEGORY_EXISTS);
      }
      var d := Draft(n, description, None);
      var saved := Save(d, true, newId, categories);
      match saved
      case ValidationFailed(ms) =>
        r := Fail(BAD_REQUEST, Join(ms, ", "));
      case DuplicateKey =>
        r := Fail(BAD_REQUEST, DUPLICATE_NAME);
      case Saved(c) =>
        SavedIsWellFormed(d, true, newId, categories);
        AddKeepsValid(categories, c);
        categories := categories + [c];
        r := Ok(CREATED, c);
    }

    /** `updateCategory`: 404 for an unknown id; otherwise a truthy name and
        a defined description are applied and the category is saved against
        the others: a schema failure answers 400 with the messages joined by
        ", ", a unique-index clash 500 (the handler has no case for it), and
        success 200 with the category replaced in place. */
    method UpdateCategory(id: string, name: Option<string>, description: Option<string>) returns (r: Reply<Category>)
      requires Valid()
      modifies this
      ensures Valid()
      ensures FindFirst(old(categories), (c: Category) => c.id == id).None? ==>
        r == Fail(NOT_FOUND, CATEGORY_NOT_FOUND) && categories == old(categories)
      ensures FindFirst(old(categories), (c: Category) => c.id == id).Some? ==>
        var k := FindFirst(old(categories), (c: Category) => c.id == id).value;
        var current := old(categories)[k];
        var renamed := Rename(current, name);
        var d := Draft(renamed.0, Redescribe(current, description), Some(current.slug));
        match Save(d, renamed.1, id, Without(old(categories), k))
        case ValidationFailed(ms) => r == Fail(BAD_REQUEST, Join(ms, ", ")) && categories == old(categories)
        case DuplicateKey => r == Fail(SERVER_ERROR, UPDATE_FAILED) && categories == old(categories)
        case Saved(c) => r == Ok(OK, c) && categories == old(categories)[k := c]
    {
      var found := FindFirst(categories, (c: Category) => c.id == id);
      if found.None? {
        return Fail(NOT_FOUND, CATEGORY_NOT_FOUND);
      }
      var k := found.value;
      var current := categories[k];
      var renamed := Rename(current, name);
      var d := Draft(renamed.0, Redescribe(current, description), Some(current.slug));
      var others := Without(categories, k);
      var saved := Save(d, renamed.1, id, others);
      match saved
      case ValidationFailed(ms) =>
        r := Fail(BAD_REQUEST, Join(ms, ", "));
      case DuplicateKey =>
        r := Fail(SERVER_ERROR, UPDATE_FAILED);
      case Saved(c) =>
        assert WellFormed(current);
        SavedIsWellFormed(d, renamed.1, id, others);
        ReplaceKeepsValid(categories, k, c);
        categories := categories[k := c];
        r := Ok(OK, c);
    }

    /** `deleteCategory`: 404 and no change for an unknown id; otherwise
        exactly that category is removed. */
    method DeleteCategory(id: string) returns (r: Reply<string>)
      requires Valid()
      modifies this
      ensures Valid()
      ensures FindFirst(old(categories), (c: Category) => c.id == id).None? ==>
        r == Fail(NOT_FOUND, CATEGORY_NOT_FOUND) && categories == old(categories)
      ensures FindFirst(old(categories), (c: Category) => c.id == id).Some? ==>
        var k := FindFirst(old(categories), (c: Category) => c.id == id).value;
        && r == Ok(OK, CATEGORY_DELETED)
        && categories == Without(old(categories), k)
        && forall i :: 0 <= i < |categories| ==> categories[i].id != id
    {
      var found := FindFirst(categories, (c: Category) => c.id == id);
      if found.None? {
        return Fail(NOT_FOUND, CATEGORY_NOT_FOUND);
      }
      RemoveKeepsValid(categories, found.value);
      categories := Without(categories, found.value);
      r := Ok(OK, CATEGORY_DELETED);
    }
  }
}
