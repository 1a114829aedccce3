/** The category schema: the slug derived from the name, the `url`
    virtual, the field constraints, and the order in which a save checks
    the constraints and runs the slug hook. */
module CategoryModel {
  import opened Common
  import opened Text
  import opened Seqs

  // ---------------------------------------------------------------------
  // The slug

  /** The regular-expression class `\w`. */
  predicate IsWordChar(c: char) {
    'a' <= c <= 'z' || 'A' <= c <= 'Z' || '0' <= c <= '9' || c == '_'
  }

  /** The characters a slug can hold: `[a-z0-9_-]`. */
  predicate IsSlugChar(c: char) {
    'a' <= c <= 'z' || '0' <= c <= '9' || c == '_' || c == '-'
  }

  /** What `[\w ]` matches. */
  predicate IsWordOrSpace(c: char) {
    IsWordChar(c) || c == ' '
  }

  /** `replace(/[^\w ]+/g, '')`: keep word characters and spaces. */
  function KeepWordsAndSpaces(s: string): (r: string)
    ensures forall i :: 0 <= i < |r| ==> IsWordOrSpace(r[i])
    ensures |r| <= |s|
  {
    Filter(s, IsWordOrSpace)
  }

  /** Every word character and space survives, as often as the input holds
      it, and nothing else does. */
  lemma KeepWordsAndSpacesCounts(s: string)
    ensures forall c :: multiset(KeepWordsAndSpaces(s))[c] == if IsWordOrSpace(c) then multiset(s)[c] else 0
  {
    FilterCounts(s, IsWordOrSpace);
  }

  /** Drops leading spaces (only U+0020, as `/ +/` matches). */
  function DropSpaces(s: string): (r: string)
    ensures |r| <= |s| && r == s[|s| - |r|..]
    ensures r == [] || r[0] != ' '
  {
    if s != [] && s[0] == ' ' then DropSpaces(s[1..]) else s
  }

  predicate NoSpace(s: string) {
    forall i :: 0 <= i < |s| ==> s[i] != ' '
  }

  predicate NoHyphen(s: string) {
    forall i :: 0 <= i < |s| ==> s[i] != '-'
  }

  /** No `--` anywhere. */
  predicate NoDoubleHyphen(s: string) {
    forall i :: 0 <= i < |s| - 1 ==> !(s[i] == '-' && s[i + 1] == '-')
  }

  /** Only `[a-z0-9_-]`. */
  predicate SlugChars(s: string) {
    forall i :: 0 <= i < |s| ==> IsSlugChar(s[i])
  }

  /** Only `[a-z0-9_ -]`. */
  predicate SlugCharsOrSpaces(s: string) {
    forall i :: 0 <= i < |s| ==> s[i] == ' ' || IsSlugChar(s[i])
  }

  /** `replace(/ +/g, '-')`: each maximal run of spaces becomes one hyphen.
      No space survives, and a first character that is not a space stays
      first. */
  function Hyphenate(s: string): (r: string)
    ensures NoSpace(r)
    ensures s != [] && s[0] != ' ' ==> r != [] && r[0] == s[0]
    decreases |s|
  {
    if s == [] then []
    else if s[0] == ' ' then
      "-" + Hyphenate(DropSpaces(s[1..]))
    else
      [s[0]] + Hyphenate(s[1..])
  }

  /** Hyphenation introduces no character outside `[a-z0-9_-]`. */
  lemma {:induction false} HyphenateSlugChars(s: string)
    requires SlugCharsOrSpaces(s)
    ensures SlugChars(Hyphenate(s))
    decreases |s|
  {
    if s != [] {
      if s[0] == ' ' {
        var t := DropSpaces(s[1..]);
        assert forall i :: 0 <= i < |t| ==> t[i] == s[|s| - |t| + i];
        HyphenateSlugChars(t);
      } else {
        HyphenateSlugChars(s[1..]);
      }
    }
  }

  /** A string without hyphens gains no `--` from hyphenation: each run of
      spaces is maximal, so two hyphens are never adjacent. */
  lemma {:induction false} HyphenateNoDoubleHyphen(s: string)
    requires NoHyphen(s)
    ensures NoDoubleHyphen(Hyphenate(s))
    decreases |s|
  {
    if s != [] {
      if s[0] == ' ' {
        var t := DropSpaces(s[1..]);
        assert forall i :: 0 <= i < |t| ==> t[i] == s[|s| - |t| + i];
        HyphenateNoDoubleHyphen(t);
        var h := Hyphenate(t);
        assert h == [] || h[0] == t[0];
        assert Hyphenate(s) == "-" + h;
      } else {
        HyphenateNoDoubleHyphen(s[1..]);
        assert Hyphenate(s) == [s[0]] + Hyphenate(s[1..]);
      }
    }
  }

  /** The slug the pre-save hook derives from a name: lower-case it, delete
      every character outside `[A-Za-z0-9_ ]`, turn each run of spaces into
      one `-`. The result holds only `[a-z0-9_-]` and never `--`; it can be
      empty, and it can start or end with `-`. */
  function Slugify(name: string): (r: string)
    ensures SlugChars(r)
    ensures NoDoubleHyphen(r)
  {
    var lowered := Lower(name);
    var kept := KeepWordsAndSpaces(lowered);
    FilterFromInput(lowered, IsWordOrSpace);
    forall i | 0 <= i < |kept| ensures kept[i] == ' ' || (IsSlugChar(kept[i]) && kept[i] != '-') {
      assert kept[i] in multiset(kept);
      assert kept[i] in multiset(lowered);
      var k :| 0 <= k < |lowered| && lowered[k] == kept[i];
    }
    HyphenateSlugChars(kept);
    HyphenateNoDoubleHyphen(kept);
    Hyphenate(kept)
  }

  /** A name already made of `[a-z0-9_]` is its own slug. */
  lemma {:induction false} SlugifyKeepsPlainSlug(s: string)
    requires forall i :: 0 <= i < |s| ==> IsSlugChar(s[i]) && s[i] != '-'
    ensures Slugify(s) == s
  {
    assert Lower(s) == s;
    FilterKeepsAll(s);
    HyphenateWithoutSpaces(s);
  }

  lemma {:induction false} FilterKeepsAll(s: string)
    requires forall i :: 0 <= i < |s| ==> IsWordChar(s[i]) || s[i] == ' '
    ensures KeepWordsAndSpaces(s) == s
  {
    if s != [] {
      FilterKeepsAll(s[1..]);
      assert s == [s[0]] + s[1..];
    }
  }

  lemma {:induction false} HyphenateWithoutSpaces(s: string)
    requires forall i :: 0 <= i < |s| ==> s[i] != ' '
    ensures Hyphenate(s) == s
  {
    if s != [] {
      HyphenateWithoutSpaces(s[1..]);
      assert s == [s[0]] + s[1..];
    }
  }

  /** A prefix without spaces passes through hyphenation unchanged. */
  lemma {:induction false} HyphenateAppend(a: string, b: string)
    requires NoSpace(a)
    ensures Hyphenate(a + b) == a + Hyphenate(b)
  {
    if a == [] {
      assert a + b == b;
    } else {
      HeadThenRest(a, b);
      HyphenateAppend(a[1..], b);
      HyphenateKeepsFirst(a[0], a[1..] + b);
      HeadThenRest(a, Hyphenate(b));
    }
  }

  /** A first character that is not a space is kept, and the rest is
      hyphenated on its own. */
  lemma HyphenateKeepsFirst(c: char, t: string)
    requires c != ' '
    ensures Hyphenate([c] + t) == [c] + Hyphenate(t)
  {
    assert ([c] + t)[1..] == t;
  }

  /** `n` spaces. */
  function Spaces(n: nat): (r: string)
    ensures |r| == n
  {
    if n == 0 then [] else [' '] + Spaces(n - 1)
  }

  /** However many spaces follow the first, they are dropped with it. */
  lemma {:induction false} DropSpaceRun(n: nat, b: string)
    requires b == [] || b[0] != ' '
    ensures DropSpaces(Spaces(n) + b) == b
  {
    if n == 0 {
      DropNoRun(b);
    } else {
      DropOneOfRun(n, b);
      DropSpaceRun(n - 1, b);
    }
  }

  lemma DropNoRun(b: string)
    requires b == [] || b[0] != ' '
    ensures DropSpaces(Spaces(0) + b) == b
  {
    assert Spaces(0) + b == b;
  }

  lemma DropOneOfRun(n: nat, b: string)
    requires n >= 1
    ensures DropSpaces(Spaces(n) + b) == DropSpaces(Spaces(n - 1) + b)
  {
    SpacesSplit(n, b);
    DropLeadingSpace(Spaces(n - 1) + b);
  }

  lemma DropLeadingSpace(rest: string)
    ensures DropSpaces([' '] + rest) == DropSpaces(rest)
  {
    assert ([' '] + rest)[1..] == rest;
  }

  /** A leading space becomes a hyphen and takes the spaces after it along. */
  lemma HyphenateFirstSpace(rest: string)
    ensures Hyphenate([' '] + rest) == "-" + Hyphenate(DropSpaces(rest))
  {
    assert ([' '] + rest)[1..] == rest;
  }

  lemma SpacesSplit(n: nat, b: string)
    requires n >= 1
    ensures Spaces(n) + b == [' '] + (Spaces(n - 1) + b)
  {
    assert Spaces(n) == [' '] + Spaces(n - 1);
  }

  /** A leading run of one or more spaces becomes a single hyphen. */
  lemma HyphenateLeadingRun(n: nat, b: string)
    requires n >= 1
    requires b == [] || b[0] != ' '
    ensures Hyphenate(Spaces(n) + b) == "-" + Hyphenate(b)
  {
    SpacesSplit(n, b);
    HyphenateFirstSpace(Spaces(n - 1) + b);
    DropSpaceRun(n - 1, b);
  }

  lemma HyphenateAfterPrefix(a: string, run: string, b: string)
    requires NoSpace(a)
    requires Hyphenate(run) == "-" + Hyphenate(b)
    ensures Hyphenate(a + run) == a + ("-" + Hyphenate(b))
  {
    HyphenateAppend(a, run);
  }

  /** A run of one or more spaces after a space-free prefix becomes a
      single hyphen, whatever its length. */
  lemma HyphenateSpaceRun(a: string, n: nat, b: string)
    requires NoSpace(a) && n >= 1
    requires b == [] || b[0] != ' '
    ensures Hyphenate(a + (Spaces(n) + b)) == a + ("-" + Hyphenate(b))
  {
    HyphenateLeadingRun(n, b);
    HyphenateAfterPrefix(a, Spaces(n) + b, b);
  }

  /** A word: one or more characters of `\w`, in either case. */
  predicate IsWord(s: string) {
    s != [] && forall i :: 0 <= i < |s| ==> IsWordChar(s[i])
  }

  /** Characters the slug deletes outright: none is in `[\w ]`. */
  predicate IsDeleted(s: string) {
    forall i :: 0 <= i < |s| ==> !IsWordOrSpace(s[i])
  }

  lemma LowerAppend(a: string, b: string)
    ensures Lower(a + b) == Lower(a) + Lower(b)
  {
  }

  /** Lower-casing leaves deleted characters alone. */
  lemma LowerAround(a: string, p: string, b: string)
    requires IsDeleted(p)
    ensures Lower(a + p + b) == Lower(a) + p + Lower(b)
  {
    LowerAppend(a + p, b);
    LowerAppend(a, p);
  }

  /** A lowered word is kept whole, and holds no space or hyphen. */
  lemma KeepLoweredWord(a: string)
    requires IsWord(a)
    ensures KeepWordsAndSpaces(Lower(a)) == Lower(a)
    ensures forall i :: 0 <= i < |Lower(a)| ==> IsWordChar(Lower(a)[i]) && Lower(a)[i] != ' ' && Lower(a)[i] != '-'
  {
    FilterKeepsAll(Lower(a));
  }

  lemma KeepAppend(x: string, y: string)
    ensures KeepWordsAndSpaces(x + y) == KeepWordsAndSpaces(x) + KeepWordsAndSpaces(y)
  {
    FilterAppend(x, y, IsWordOrSpace);
  }

  lemma {:induction false} FilterDropsAll(s: string)
    requires IsDeleted(s)
    ensures KeepWordsAndSpaces(s) == []
  {
    if s != [] {
      FilterDropsAll(s[1..]);
    }
  }

  /** Deleting `p` from between `x` and `y`. */
  lemma KeepAround(x: string, p: string, y: string)
    requires IsDeleted(p)
    ensures KeepWordsAndSpaces(x + p + y) == KeepWordsAndSpaces(x) + KeepWordsAndSpaces(y)
  {
    KeepAppend(x + p, y);
    KeepAppend(x, p);
    FilterDropsAll(p);
  }

  /** A single leading space before a space-free string becomes a hyphen. */
  lemma HyphenateLeadingSpace(y: string)
    requires forall i :: 0 <= i < |y| ==> y[i] != ' '
    ensures Hyphenate([' '] + y) == "-" + y
  {
    var s := [' '] + y;
    assert s[1..] == y;
    assert DropSpaces(y) == y;
    HyphenateWithoutSpaces(y);
  }

  /** One space between two space-free strings becomes one hyphen. */
  lemma HyphenateOneSpace(x: string, y: string)
    requires forall i :: 0 <= i < |x| ==> x[i] != ' '
    requires forall i :: 0 <= i < |y| ==> y[i] != ' '
    ensures Hyphenate(x + " " + y) == x + "-" + y
  {
    AppendAssoc(x, " ", y);
    HyphenateLeadingSpace(y);
    HyphenateWithoutSpaces(y);
    HyphenateAfterPrefix(x, " " + y, y);
    AppendAssoc(x, "-", y);
  }

  lemma LowerTwoWords(a: string, p: string, b: string, q: string)
    requires IsDeleted(p) && IsDeleted(q)
    ensures Lower(a + p + " " + b + q) == Lower(a) + p + " " + Lower(b) + q
  {
  }

  /** Deleting the punctuation after each of two words kept whole. */
  lemma KeepTwoWords(x: string, p: string, y: string, q: string)
    requires forall i :: 0 <= i < |x| ==> IsWordChar(x[i])
    requires forall i :: 0 <= i < |y| ==> IsWordChar(y[i])
    requires IsDeleted(p) && IsDeleted(q)
    ensures KeepWordsAndSpaces(x + p + " " + y + q) == x + " " + y
  {
    var sy := [' '] + y;
    var u := x + p + sy;
    assert x + p + " " + y + q == u + q;
    KeepWordThenDeleted(u, q);
    KeepWordThenDeleted(x, p);
    assert KeepWordsAndSpaces(sy) == sy by { FilterKeepsAll(sy); }
    assert KeepWordsAndSpaces(x) == x by { FilterKeepsAll(x); }
    KeepAppend(x + p, sy);
    assert x + sy == x + " " + y;
  }

  /** Deleted characters after kept ones vanish. */
  lemma KeepWordThenDeleted(x: string, p: string)
    requires IsDeleted(p)
    ensures KeepWordsAndSpaces(x + p) == KeepWordsAndSpaces(x)
  {
    KeepAppend(x, p);
    FilterDropsAll(p);
  }

  /** Punctuation is deleted and the space becomes a hyphen: the slug of
      "Hello, World!" is "hello-world", and so for any two words with
      punctuation after each. */
  lemma SlugOfTwoWords(a: string, p: string, b: string, q: string)
    requires IsWord(a) && IsWord(b) && IsDeleted(p) && IsDeleted(q)
    ensures Slugify(a + p + " " + b + q) == Lower(a) + "-" + Lower(b)
  {
    LowerTwoWords(a, p, b, q);
    KeepLoweredWord(a);
    KeepLoweredWord(b);
    KeepTwoWords(Lower(a), p, Lower(b), q);
    HyphenateOneSpace(Lower(a), Lower(b));
  }

  /** A hyphen is itself deleted: the slug of "hello-world" is "helloworld". */
  lemma SlugDropsPunctuation(a: string, p: string, b: string)
    requires IsWord(a) && IsWord(b) && IsDeleted(p)
    ensures Slugify(a + p + b) == Lower(a) + Lower(b)
  {
    LowerAround(a, p, b);
    KeepAround(Lower(a), p, Lower(b));
    KeepLoweredWord(a);
    KeepLoweredWord(b);
    HyphenateWithoutSpaces(Lower(a) + Lower(b));
  }

  /** A name with no character of `[\w ]` (such as "!!!") has the empty slug. */
  lemma SlugOfDeleted(p: string)
    requires IsDeleted(p)
    ensures Slugify(p) == ""
  {
    assert Lower(p) == p;
    FilterDropsAll(p);
  }

  /** Slugifying a slug can change it: the hook is not idempotent. */
  lemma SlugifyNotIdempotent(a: string, b: string)
    requires IsWord(a) && IsWord(b)
    ensures Slugify(Slugify(a + " " + b)) != Slugify(a + " " + b)
  {
    SlugOfTwoWords(a, [], b, []);
    assert a + [] + " " + b + [] == a + " " + b;
    KeepLoweredWord(a);
    KeepLoweredWord(b);
    SlugDropsPunctuation(Lower(a), "-", Lower(b));
    assert |Slugify(Lower(a) + "-" + Lower(b))| == |a| + |b|;
  }

  /** The pre-save hook: recompute the slug only when the name changed. */
  function SlugHook(slug: Option<string>, nameModified: bool, name: string): (r: Option<string>)
    ensures nameModified ==> r == Some(Slugify(name))
    ensures !nameModified ==> r == slug
  {
    if nameModified then Some(Slugify(name)) else slug
  }

  // ---------------------------------------------------------------------
  // The url virtual

  const URL_PREFIX := "/categories/"

  /** The `url` virtual: the slug under `/categories/`. */
  function Url(slug: string): (r: string)
    ensures |r| == |URL_PREFIX| + |slug|
    ensures r[..|URL_PREFIX|] == URL_PREFIX && r[|URL_PREFIX|..] == slug
  {
    URL_PREFIX + slug
  }

  /** Distinct slugs give distinct urls, so a url names one category. */
  lemma UrlInjective(a: string, b: string)
    requires Url(a) == Url(b)
    ensures a == b
  {
    assert a == Url(a)[|URL_PREFIX|..];
  }

  // ---------------------------------------------------------------------
  // Field constraints and saving

  /** A stored category. */
  datatype Category = Category(id: string, name: string, description: Option<string>, slug: string)

  /** A document about to be saved: its slug is unset on a new document. */
  datatype Draft = Draft(name: string, description: Option<string>, slug: Option<string>)

  const NAME_REQUIRED := "Please provide a category name"
  const NAME_TOO_LONG := "Category name cannot exceed 50 characters"
  const DESCRIPTION_TOO_LONG := "Description cannot exceed 200 characters"
  const SLUG_REQUIRED := "Path `slug` is required."

  /** The schema's constraints, path by path in schema order, each path
      reporting its first failure: the (trimmed) name is required and at
      most 50 characters, the description at most 200, the slug required.
      A required string must not be "". */
  function SchemaErrors(d: Draft): (r: seq<string>)
    ensures r == [] <==>
      && 1 <= |d.name| <= 50
      && (d.description.Some? ==> |d.description.value| <= 200)
      && d.slug.Some? && d.slug.value != ""
    ensures NAME_REQUIRED in r <==> d.name == ""
    ensures SLUG_REQUIRED in r <==> d.slug.None? || d.slug.value == ""
    ensures |r| <= 3
  {
    (if d.name == "" then [NAME_REQUIRED] else if |d.name| > 50 then [NAME_TOO_LONG] else [])
    + (if d.description.Some? && |d.description.value| > 200 then [DESCRIPTION_TOO_LONG] else [])
    + (if d.slug.None? || d.slug.value == "" then [SLUG_REQUIRED] else [])
  }

  /** What a save ends in: stored, rejected by the schema, or rejected by a
      unique index (error code 11000). */
  datatype SaveResult = Saved(category: Category) | ValidationFailed(messages: seq<string>) | DuplicateKey

  /** The unique indexes on `_id`, `name` and `slug`: `c` collides with a
      stored category when it shares any of them. */
  predicate Collides(others: seq<Category>, c: Category) {
    exists j :: 0 <= j < |others| && (others[j].id == c.id || others[j].name == c.name || others[j].slug == c.slug)
  }

  /** Writes a document that passed validation, unless an index rejects it. */
  function Store(others: seq<Category>, c: Category): (r: SaveResult)
    ensures r == if Collides(others, c) then DuplicateKey else Saved(c)
  {
    if Collides(others, c) then DuplicateKey else Saved(c)
  }

  /** `save()` as the schema is written: the constraints are checked first,
      and only then does the pre-save hook set the slug. */
  function SaveAsWritten(d: Draft, nameModified: bool, id: string, others: seq<Category>): (r: SaveResult)
    ensures SchemaErrors(d) != [] ==> r == ValidationFailed(SchemaErrors(d))
    ensures SchemaErrors(d) == [] ==>
      r == Store(others, Category(id, d.name, d.description, SlugHook(d.slug, nameModified, d.name).value))
  {
    var errors := SchemaErrors(d);
    if errors != [] then ValidationFailed(errors)
    else Store(others, Category(id, d.name, d.description, SlugHook(d.slug, nameModified, d.name).value))
  }

  /** As written, creating a category can never succeed: a new document has
      no slug when the constraints are checked, so the required slug always
      fails, whatever the name. */
  lemma CreateAsWrittenAlwaysFails(name: string, description: Option<string>, id: string, others: seq<Category>)
    ensures var r := SaveAsWritten(Draft(name, description, None), true, id, others);
      r.ValidationFailed? && SLUG_REQUIRED in r.messages
  {
  }

  /** As written, a rename to a name with no character of `[\w ]` (such
      as "!!!") stores an empty slug: the old slug passes the required
      check, and only then does the hook replace it with "". */
  lemma RenameAsWrittenStoresEmptySlug(name: string, id: string, slug: string, others: seq<Category>)
    requires 1 <= |name| <= 50 && IsDeleted(name) && slug != ""
    requires forall j :: 0 <= j < |others| ==> others[j].id != id && others[j].name != name && others[j].slug != ""
    ensures SaveAsWritten(Draft(name, None, Some(slug)), true, id, others) == Saved(Category(id, name, None, ""))
  {
    SlugOfDeleted(name);
  }

  /** The evidently intended `save()`: the slug hook runs before the
      constraints are checked (a pre-validate hook), so the slug checked and
      stored is the one derived from the name being saved. */
  function Save(d: Draft, nameModified: bool, id: string, others: seq<Category>): (r: SaveResult)
    ensures var hooked := d.(slug := SlugHook(d.slug, nameModified, d.name));
      && (SchemaErrors(hooked) != [] ==> r == ValidationFailed(SchemaErrors(hooked)))
      && (SchemaErrors(hooked) == [] ==> r == Store(others, Category(id, d.name, d.description, hooked.slug.value)))
  {
    var hooked := d.(slug := SlugHook(d.slug, nameModified, d.name));
    var errors := SchemaErrors(hooked);
    if errors != [] then ValidationFailed(errors)
    else Store(others, Category(id, d.name, d.description, hooked.slug.value))
  }

  /** Everything `Save` stores satisfies the schema, with a non-empty slug
      that is the slug of the new name whenever the name changed. */
  lemma SavedSatisfiesSchema(d: Draft, nameModified: bool, id: string, others: seq<Category>)
    requires Save(d, nameModified, id, others).Saved?
    ensures var c := Save(d, nameModified, id, others).category;
      && c.id == id && c.name == d.name && c.description == d.description
      && SchemaErrors(Draft(c.name, c.description, Some(c.slug))) == []
      && (nameModified ==> c.slug == Slugify(d.name))
      && (!nameModified ==> Some(c.slug) == d.slug)
      && !Collides(others, c)
  {
  }

  /** With the hook first, a new category whose name is valid and yields a
      non-empty slug is stored under that slug unless an index clashes. */
  lemma CreateSucceeds(name: string, description: Option<string>, id: string, others: seq<Category>)
    requires 1 <= |name| <= 50 && Slugify(name) != ""
    requires description.Some? ==> |description.value| <= 200
    requires !Collides(others, Category(id, name, description, Slugify(name)))
    ensures Save(Draft(name, description, None), true, id, others) == Saved(Category(id, name, description, Slugify(name)))
  {
  }
}
