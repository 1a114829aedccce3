/** The request validators: each rule set checks the body fields it names
    (after trimming where the chain trims) and collects one
    `{ field, message }` per failing check; no chain stops at its first
    failure. `handleValidationErrors` turns a non-empty list into a 400. */
module Validate {
  import opened Common
  import opened Text
  import opened Seqs

  /** A JSON body value, for the fields whose type is checked. */
  datatype Json = JNull | JBool(b: bool) | JNum(n: int) | JStr(s: string) | JArr(items: seq<string>)

  /** The string a standard validator sees: an absent field reads as "". */
  function Str(v: Option<string>): string {
    v.GetOr("")
  }

  /** Every check of every rule set, with the field it reports on and its
      `withMessage` text. */
  datatype Rule =
    | UsernameRequired | UsernameLength | EmailRequired | EmailInvalid
    | PasswordRequired | PasswordLength
    | TitleRequired | TitleEmpty | TitleTooLong | ContentRequired | ContentEmpty
    | ExcerptTooLong | CategoryRequired | CategoryInvalid | TagsNotArray | NotBoolean
    | NameRequired | NameTooLong | DescriptionTooLong
    | CommentRequired | CommentLength
  {
    function Field(): string {
      match this
      case UsernameRequired | UsernameLength => "username"
      case EmailRequired | EmailInvalid => "email"
      case PasswordRequired | PasswordLength => "password"
      case TitleRequired | TitleEmpty | TitleTooLong => "title"
      case ContentRequired | ContentEmpty | CommentRequired | CommentLength => "content"
      case ExcerptTooLong => "excerpt"
      case CategoryRequired | CategoryInvalid => "category"
      case TagsNotArray => "tags"
      case NotBoolean => "isPublished"
      case NameRequired | NameTooLong => "name"
      case DescriptionTooLong => "description"
    }

    /** The position of the check in its rule set's chain: the fields in
        the order the rule set lists them, and each field's checks in the
        order they are chained. */
    function Order(): nat {
      match this
      case UsernameRequired => 0
      case UsernameLength => 1
      case EmailRequired => 2
      case EmailInvalid => 3
      case PasswordRequired => 4
      case PasswordLength => 5
      case TitleRequired | TitleEmpty => 6
      case TitleTooLong => 7
      case ContentRequired | ContentEmpty => 8
      case ExcerptTooLong => 9
      case CategoryRequired => 10
      case CategoryInvalid => 11
      case TagsNotArray => 12
      case NotBoolean => 13
      case NameRequired => 14
      case NameTooLong => 15
      case DescriptionTooLong => 16
      case CommentRequired => 17
      case CommentLength => 18
    }

    function Message(): string {
      match this
      case UsernameRequired => "Username is required"
      case UsernameLength => "Username must be between 3 and 30 characters"
      case EmailRequired => "Email is required"
      case EmailInvalid => "Please provide a valid email address"
      case PasswordRequired => "Password is required"
      case PasswordLength => "Password must be at least 6 characters long"
      case TitleRequired => "Title is required"
      case TitleEmpty => "Title cannot be empty"
      case TitleTooLong => "Title cannot exceed 100 characters"
      case ContentRequired => "Content is required"
      case ContentEmpty => "Content cannot be empty"
      case ExcerptTooLong => "Excerpt cannot exceed 200 characters"
      case CategoryRequired => "Category is required"
      case CategoryInvalid => "Invalid category ID"
      case TagsNotArray => "Tags must be an array"
      case NotBoolean => "isPublished must be a boolean"
      case NameRequired => "Category name is required"
      case NameTooLong => "Category name cannot exceed 50 characters"
      case DescriptionTooLong => "Description cannot exceed 200 characters"
      case CommentRequired => "Comment content is required"
      case CommentLength => "Comment must be between 1 and 500 characters"
    }
  }

  /** Errors listed in the order their checks run. */
  predicate InChainOrder(r: seq<Rule>) {
    forall i, j :: 0 <= i < j < |r| ==> r[i].Order() < r[j].Order()
  }

  /** An error ahead of a list of later errors keeps chain order. */
  lemma ConsInChainOrder(x: Rule, rest: seq<Rule>)
    requires InChainOrder(rest)
    requires forall i :: 0 <= i < |rest| ==> x.Order() < rest[i].Order()
    ensures InChainOrder([x] + rest)
  {
    var r := [x] + rest;
    forall i, j | 0 <= i < j < |r| ensures r[i].Order() < r[j].Order() {
      if i > 0 {
        assert r[i] == rest[i - 1] && r[j] == rest[j - 1];
      } else {
        assert r[j] == rest[j - 1];
      }
    }
  }

  /** One check: no error when it holds, its one error otherwise. */
  function Check(ok: bool, rule: Rule): (r: seq<Rule>)
    ensures ok <==> r == []
    ensures !ok ==> r == [rule]
  {
    if ok then [] else [rule]
  }

  // ---------------------------------------------------------------------
  // Library checks

  predicate IsHexDigit(c: char) {
    '0' <= c <= '9' || 'a' <= c <= 'f' || 'A' <= c <= 'F'
  }

  predicate AllHex(s: string) {
    forall i :: 0 <= i < |s| ==> IsHexDigit(s[i])
  }

  /** `isHexadecimal`: hex digits, optionally after a `0x` or `0h` prefix
      (either case). */
  predicate IsHexadecimal(s: string) {
    || (s != [] && AllHex(s))
    || (|s| > 2 && s[0] == '0' && s[1] in "xXhH" && AllHex(s[2..]))
  }

  /** `isMongoId`: a hexadecimal string of exactly 24 characters. */
  predicate IsMongoId(s: string) {
    IsHexadecimal(s) && |s| == 24
  }

  /** An id as the database prints it is accepted; "" and a slug are not. */
  lemma MongoIdExamples()
    ensures IsMongoId("64b7f0c2a1d3e4f5a6b7c8d9")
    ensures !IsMongoId("")
    ensures !IsMongoId("hello-world")
  {
    var s := "64b7f0c2a1d3e4f5a6b7c8d9";
    assert AllHex(s) by {
      forall i | 0 <= i < |s| ensures IsHexDigit(s[i]) {
      }
    }
  }

  /** The boolean a value denotes under strict `isBoolean`: `true`,
      `false`, and their string forms "true", "false", "1", "0". A number
      is seen as its decimal string. */
  function BoolForm(v: Json): (r: Option<bool>)
    ensures r == Some(true) <==> v in {JBool(true), JStr("true"), JStr("1"), JNum(1)}
    ensures r == Some(false) <==> v in {JBool(false), JStr("false"), JStr("0"), JNum(0)}
  {
    match v
    case JBool(b) => Some(b)
    case JStr(s) =>
      if s == "true" || s == "1" then Some(true)
      else if s == "false" || s == "0" then Some(false)
      else None
    case JNum(n) => if n == 1 then Some(true) else if n == 0 then Some(false) else None
    case _ => None
  }

  // ---------------------------------------------------------------------
  // handleValidationErrors

  /** What the error-collecting middleware does: call `next()`, or answer. */
  datatype Checked = Next | Rejected(status: nat, errors: seq<FieldError>)

  /** `handleValidationErrors`: no errors calls `next()`; otherwise a 400
      with one `{ field, message }` per collected error, in order. */
  function HandleValidationErrors(errors: seq<Rule>): (c: Checked)
    ensures c.Next? <==> errors == []
    ensures c.Rejected? ==> c.status == BAD_REQUEST && |c.errors| == |errors|
    ensures c.Rejected? ==> forall i :: 0 <= i < |errors| ==>
      c.errors[i] == FieldError(errors[i].Field(), errors[i].Message())
  {
    if errors == [] then Next
    else Rejected(BAD_REQUEST, seq(|errors|, i requires 0 <= i < |errors| => FieldError(errors[i].Field(), errors[i].Message())))
  }

  // ---------------------------------------------------------------------
  // Registration and login

  datatype Credentials = Credentials(username: Option<string>, email: Option<string>, password: Option<string>)

  /** The email chain shared by registration and login, on the trimmed
      value; `isEmail` is the library's address check. */
  function EmailErrors(e: string, isEmail: string -> bool): (r: seq<Rule>)
    ensures r == [] <==> e != "" && isEmail(e)
    ensures EmailRequired in r <==> e == ""
    ensures EmailInvalid in r <==> !isEmail(e)
    ensures forall i :: 0 <= i < |r| ==> r[i].EmailRequired? || r[i].EmailInvalid?
  {
    Check(e != "", EmailRequired) + Check(isEmail(e), EmailInvalid)
  }

  /** What registration accepts: a username of 3 to 30 characters once
      trimmed, a non-empty valid email once trimmed, and a password of at
      least 6 characters as sent. */
  predicate RegisterAcceptable(c: Credentials, isEmail: string -> bool) {
    && 3 <= |Trim(Str(c.username))| <= 30
    && Trim(Str(c.email)) != "" && isEmail(Trim(Str(c.email)))
    && |Str(c.password)| >= 6
  }

  /** The registration checks on the trimmed username and email and the
      password as sent. */
  function RegisterChecks(u: string, e: string, p: string, isEmail: string -> bool): (r: seq<Rule>)
    ensures r == [] <==> 3 <= |u| <= 30 && e != "" && isEmail(e) && |p| >= 6
    ensures UsernameRequired in r <==> u == ""
    ensures UsernameLength in r <==> !(3 <= |u| <= 30)
    ensures EmailRequired in r <==> e == ""
    ensures EmailInvalid in r <==> !isEmail(e)
    ensures PasswordRequired in r <==> p == ""
    ensures PasswordLength in r <==> |p| < 6
  {
    Check(u != "", UsernameRequired) + Check(3 <= |u| <= 30, UsernameLength)
    + EmailErrors(e, isEmail)
    + Check(p != "", PasswordRequired) + Check(|p| >= 6, PasswordLength)
  }

  /** `validateRegister`. */
  function ValidateRegister(c: Credentials, isEmail: string -> bool): (r: seq<Rule>)
    ensures r == [] <==> RegisterAcceptable(c, isEmail)
    ensures UsernameRequired in r <==> Trim(Str(c.username)) == ""
    ensures UsernameLength in r <==> !(3 <= |Trim(Str(c.username))| <= 30)
    ensures EmailRequired in r <==> Trim(Str(c.email)) == ""
    ensures EmailInvalid in r <==> !isEmail(Trim(Str(c.email)))
    ensures PasswordRequired in r <==> Str(c.password) == ""
    ensures PasswordLength in r <==> |Str(c.password)| < 6
  {
    RegisterChecks(Trim(Str(c.username)), Trim(Str(c.email)), Str(c.password), isEmail)
  }

  /** What login accepts: a non-empty valid email once trimmed and a
      non-empty password; the username is not looked at. */
  predicate LoginAcceptable(c: Credentials, isEmail: string -> bool) {
    && Trim(Str(c.email)) != "" && isEmail(Trim(Str(c.email)))
    && Str(c.password) != ""
  }

  /** `validateLogin`. */
  function ValidateLogin(c: Credentials, isEmail: string -> bool): (r: seq<Rule>)
    ensures r == [] <==> LoginAcceptable(c, isEmail)
    ensures EmailRequired in r <==> Trim(Str(c.email)) == ""
    ensures EmailInvalid in r <==> !isEmail(Trim(Str(c.email)))
    ensures PasswordRequired in r <==> Str(c.password) == ""
    ensures forall i :: 0 <= i < |r| ==> r[i].EmailRequired? || r[i].EmailInvalid? || r[i].PasswordRequired?
  {
    EmailErrors(Trim(Str(c.email)), isEmail) + Check(Str(c.password) != "", PasswordRequired)
  }

  /** Whatever registration accepts, login accepts too. */
  lemma RegisterAcceptedLogsIn(c: Credentials, isEmail: string -> bool)
    requires ValidateRegister(c, isEmail) == []
    ensures ValidateLogin(c, isEmail) == []
  {
  }

  // ---------------------------------------------------------------------
  // Posts

  /** The body fields the post rule sets look at; `None` is `undefined`. */
  datatype PostBody = PostBody(
    title: Option<string>,
    content: Option<string>,
    excerpt: Option<string>,
    category: Option<string>,
    tags: Option<Json>,
    isPublished: Option<Json>,
    featuredImage: Option<string>)

  /** An excerpt, if sent, has at most 200 characters once trimmed. */
  predicate ExcerptFits(excerpt: Option<string>) {
    excerpt.Some? ==> |Trim(excerpt.value)| <= 200
  }

  /** Tags, if sent, are an array. */
  predicate TagsAreArray(tags: Option<Json>) {
    tags.Some? ==> tags.value.JArr?
  }

  /** isPublished, if sent, is a boolean or the string form of one. */
  predicate PublishedIsBoolean(isPublished: Option<Json>) {
    isPublished.Some? ==> BoolForm(isPublished.value).Some?
  }

  /** What post creation accepts: a title of 1 to 100 characters and
      non-empty content once trimmed, a category that is a database id,
      and the optional excerpt, tags and isPublished well formed if sent. */
  predicate PostAcceptable(b: PostBody) {
    && 1 <= |Trim(Str(b.title))| <= 100
    && Trim(Str(b.content)) != ""
    && IsMongoId(Str(b.category))
    && ExcerptFits(b.excerpt) && TagsAreArray(b.tags) && PublishedIsBoolean(b.isPublished)
  }

  /** What a post update accepts: any field may be left out; a title that is
      sent must have 1 to 100 characters once trimmed, sent content must
      not trim to "", a sent category must be a database id. */
  predicate PostUpdateAcceptable(b: PostBody) {
    && (b.title.Some? ==> 1 <= |Trim(b.title.value)| <= 100)
    && (b.content.Some? ==> Trim(b.content.value) != "")
    && (b.category.Some? ==> IsMongoId(b.category.value))
    && ExcerptFits(b.excerpt) && TagsAreArray(b.tags) && PublishedIsBoolean(b.isPublished)
  }

  /** Which checks of a post rule set pass on a body, one flag per check. */
  datatype PostChecks = PostChecks(
    titleNotEmpty: bool, titleLength: bool, contentNotEmpty: bool, excerptLength: bool,
    categoryNotEmpty: bool, categoryIsMongoId: bool, tagsIsArray: bool, isPublishedIsBoolean: bool)

  predicate AllPass(c: PostChecks) {
    && c.titleNotEmpty && c.titleLength && c.contentNotEmpty && c.excerptLength
    && c.categoryNotEmpty && c.categoryIsMongoId && c.tagsIsArray && c.isPublishedIsBoolean
  }

  /** Whether the check that reports `rule` passes. */
  predicate Passes(c: PostChecks, rule: Rule) {
    match rule
    case TitleRequired | TitleEmpty => c.titleNotEmpty
    case TitleTooLong => c.titleLength
    case ContentRequired | ContentEmpty => c.contentNotEmpty
    case ExcerptTooLong => c.excerptLength
    case CategoryRequired => c.categoryNotEmpty
    case CategoryInvalid => c.categoryIsMongoId
    case TagsNotArray => c.tagsIsArray
    case NotBoolean => c.isPublishedIsBoolean
    case _ => true
  }

  lemma AllPassEverywhere(c: PostChecks)
    requires AllPass(c)
    ensures forall rule :: Passes(c, rule)
  {
  }

  /** The errors of a chain: its checks that fail, in chain order. No chain
      stops at its first failure. */
  function Failing(chain: seq<Rule>, c: PostChecks): (r: seq<Rule>)
    requires InChainOrder(chain)
    ensures forall x :: x in r <==> x in chain && !Passes(c, x)
    ensures r == [] <==> forall x :: x in chain ==> Passes(c, x)
    ensures InChainOrder(r)
  {
    if chain == [] then []
    else
      var rest := Failing(chain[1..], c);
      assert forall i :: 0 <= i < |rest| ==> chain[0].Order() < rest[i].Order() by {
        forall i | 0 <= i < |rest| ensures chain[0].Order() < rest[i].Order() {
          assert rest[i] in chain[1..];
        }
      }
      if Passes(c, chain[0]) then rest
      else ConsInChainOrder(chain[0], rest); [chain[0]] + rest
  }

  /** The checks of `validatePost` in the order it runs them: title,
      content, excerpt, category, tags, isPublished. */
  const POST_CHAIN: seq<Rule> :=
    [TitleRequired, TitleTooLong, ContentRequired, ExcerptTooLong,
     CategoryRequired, CategoryInvalid, TagsNotArray, NotBoolean]

  lemma PostChainInOrder()
    ensures InChainOrder(POST_CHAIN)
  {
  }

  /** The post chain reports an error exactly when one of its checks fails. */
  lemma {:induction false} PostChainReportsFailure(c: PostChecks)
    ensures Failing(POST_CHAIN, c) == [] <==> AllPass(c)
  {
    PostChainInOrder();
    if AllPass(c) {
      AllPassEverywhere(c);
    } else {
      var x := if !c.titleNotEmpty then TitleRequired
        else if !c.titleLength then TitleTooLong
        else if !c.contentNotEmpty then ContentRequired
        else if !c.excerptLength then ExcerptTooLong
        else if !c.categoryNotEmpty then CategoryRequired
        else if !c.categoryIsMongoId then CategoryInvalid
        else if !c.tagsIsArray then TagsNotArray
        else NotBoolean;
      assert x in POST_CHAIN && !Passes(c, x);
    }
  }

  /** The checks of `validatePost` on a body: title and content are trimmed
      first; an optional field that is absent is not checked. */
  function CheckPost(b: PostBody): (c: PostChecks)
    ensures AllPass(c) <==> PostAcceptable(b)
  {
    var title := Trim(Str(b.title));
    PostChecks(title != "", |title| <= 100, Trim(Str(b.content)) != "", ExcerptFits(b.excerpt),
      Str(b.category) != "", IsMongoId(Str(b.category)), TagsAreArray(b.tags), PublishedIsBoolean(b.isPublished))
  }

  /** `validatePost`: the errors are exactly the checks of its chain that
      fail, in chain order; none exactly when the body is acceptable. */
  function ValidatePost(b: PostBody): (r: seq<Rule>)
    ensures r == [] <==> PostAcceptable(b)
    ensures forall x :: x in r <==> x in POST_CHAIN && !Passes(CheckPost(b), x)
    ensures InChainOrder(r)
  {
    PostChainInOrder();
    PostChainReportsFailure(CheckPost(b));
    Failing(POST_CHAIN, CheckPost(b))
  }

  /** The checks of `validatePostUpdate` in the order it runs them: title,
      content, excerpt, category, tags, isPublished. */
  const POST_UPDATE_CHAIN: seq<Rule> :=
    [TitleEmpty, TitleTooLong, ContentEmpty, ExcerptTooLong, CategoryInvalid, TagsNotArray, NotBoolean]

  lemma PostUpdateChainInOrder()
    ensures InChainOrder(POST_UPDATE_CHAIN)
  {
  }

  /** The update chain has no check that a category is sent: it reports an
      error exactly when one of its own checks fails. */
  lemma {:induction false} PostUpdateChainReportsFailure(c: PostChecks)
    ensures Failing(POST_UPDATE_CHAIN, c) == [] <==> AllPass(c.(categoryNotEmpty := true))
  {
    PostUpdateChainInOrder();
    if AllPass(c.(categoryNotEmpty := true)) {
      AllPassEverywhere(c.(categoryNotEmpty := true));
      assert forall x :: x in POST_UPDATE_CHAIN ==> Passes(c, x);
    } else {
      var x := if !c.titleNotEmpty then TitleEmpty
        else if !c.titleLength then TitleTooLong
        else if !c.contentNotEmpty then ContentEmpty
        else if !c.excerptLength then ExcerptTooLong
        else if !c.categoryIsMongoId then CategoryInvalid
        else if !c.tagsIsArray then TagsNotArray
        else NotBoolean;
      assert x in POST_UPDATE_CHAIN && !Passes(c, x);
    }
  }

  /** The checks of `validatePostUpdate` on a body: every field is optional
      and an absent one is not checked; title and content are trimmed first.
      The chain has no check that a category is sent. */
  function CheckPostUpdate(b: PostBody): (c: PostChecks)
    ensures c.categoryNotEmpty
    ensures AllPass(c) <==> PostUpdateAcceptable(b)
  {
    PostChecks(
      b.title.None? || Trim(b.title.value) != "", b.title.None? || |Trim(b.title.value)| <= 100,
      b.content.None? || Trim(b.content.value) != "", ExcerptFits(b.excerpt),
      true, b.category.None? || IsMongoId(b.category.value),
      TagsAreArray(b.tags), PublishedIsBoolean(b.isPublished))
  }

  /** `validatePostUpdate`: the errors are exactly the checks of its chain
      that fail on sent fields, in chain order; none exactly when the update
      is acceptable. */
  function ValidatePostUpdate(b: PostBody): (r: seq<Rule>)
    ensures r == [] <==> PostUpdateAcceptable(b)
    ensures forall x :: x in r <==> x in POST_UPDATE_CHAIN && !Passes(CheckPostUpdate(b), x)
    ensures InChainOrder(r)
  {
    PostUpdateChainInOrder();
    var c := CheckPostUpdate(b);
    PostUpdateChainReportsFailure(c);
    assert c.(categoryNotEmpty := true) == c;
    Failing(POST_UPDATE_CHAIN, c)
  }

  /** Two failing checks are reported in chain order: the error of the
      check that runs first comes first. */
  lemma {:induction false} ReportedInChainOrder(chain: seq<Rule>, c: PostChecks, x: Rule, y: Rule)
    requires InChainOrder(chain)
    requires x in chain && !Passes(c, x) && y in chain && !Passes(c, y)
    requires x.Order() < y.Order()
    ensures exists i, j :: 0 <= i < j < |Failing(chain, c)| && Failing(chain, c)[i] == x && Failing(chain, c)[j] == y
  {
    var r := Failing(chain, c);
    var i :| 0 <= i < |r| && r[i] == x;
    var j :| 0 <= j < |r| && r[j] == y;
    assert i < j;
  }

  /** A long excerpt and a bad category id are both reported, in chain
      order: the excerpt's error first. */
  lemma ExcerptReportedBeforeCategory(b: PostBody)
    requires !ExcerptFits(b.excerpt) && !IsMongoId(Str(b.category))
    ensures exists i, j ::
      && 0 <= i < j < |ValidatePost(b)|
      && ValidatePost(b)[i] == ExcerptTooLong && ValidatePost(b)[j] == CategoryInvalid
  {
    var c := CheckPost(b);
    assert !Passes(c, ExcerptTooLong) && !Passes(c, CategoryInvalid);
    PostChainInOrder();
    assert ExcerptTooLong in POST_CHAIN && CategoryInvalid in POST_CHAIN;
    ReportedInChainOrder(POST_CHAIN, c, ExcerptTooLong, CategoryInvalid);
    assert ValidatePost(b) == Failing(POST_CHAIN, c);
  }

  /** A body fit for creating a post is fit for updating one. */
  lemma CreatableIsUpdatable(b: PostBody)
    requires ValidatePost(b) == []
    ensures ValidatePostUpdate(b) == []
  {
  }

  /** An update that sends nothing passes validation. */
  lemma EmptyUpdateAccepted()
    ensures ValidatePostUpdate(PostBody(None, None, None, None, None, None, None)) == []
  {
  }

  // ---------------------------------------------------------------------
  // Categories and comments

  datatype CategoryBody = CategoryBody(name: Option<string>, description: Option<string>)

  /** What category creation accepts: a name of 1 to 50 characters once
      trimmed and, if sent, a description of at most 200 once trimmed. */
  predicate CategoryAcceptable(b: CategoryBody) {
    && 1 <= |Trim(Str(b.name))| <= 50
    && (b.description.Some? ==> |Trim(b.description.value)| <= 200)
  }

  /** `validateCategory`. */
  function ValidateCategory(b: CategoryBody): (r: seq<Rule>)
    ensures r == [] <==> CategoryAcceptable(b)
    ensures NameRequired in r <==> Trim(Str(b.name)) == ""
    ensures NameTooLong in r <==> |Trim(Str(b.name))| > 50
    ensures DescriptionTooLong in r <==> b.description.Some? && |Trim(b.description.value)| > 200
  {
    var n := Trim(Str(b.name));
    Check(n != "", NameRequired) + Check(|n| <= 50, NameTooLong)
    + (if b.description.None? then [] else Check(|Trim(b.description.value)| <= 200, DescriptionTooLong))
  }

  /** `validateComment`: the content, trimmed, must have 1 to 500 characters. */
  function ValidateComment(content: Option<string>): (r: seq<Rule>)
    ensures r == [] <==> 1 <= |Trim(Str(content))| <= 500
    ensures CommentRequired in r <==> Trim(Str(content)) == ""
    ensures CommentLength in r <==> !(1 <= |Trim(Str(content))| <= 500)
  {
    CommentRules(Trim(Str(content)))
  }

  /** The two comment checks on the already trimmed content. */
  function CommentRules(c: string): seq<Rule> {
    Check(c != "", CommentRequired) + Check(1 <= |c| <= 500, CommentLength)
  }

  /** A comment that is absent, empty or all white space fails both checks,
      so the 400 lists two errors for the one field. */
  lemma BlankCommentFailsTwice(content: Option<string>)
    requires forall i :: 0 <= i < |Str(content)| ==> IsSpace(Str(content)[i])
    ensures ValidateComment(content) == [CommentRequired, CommentLength]
    ensures HandleValidationErrors(ValidateComment(content)).Rejected?
    ensures HandleValidationErrors(ValidateComment(content)).errors
         == [FieldError("content", "Comment content is required"),
             FieldError("content", "Comment must be between 1 and 500 characters")]
  {
    BlankCommentBreaksBothRules(content);
    BothCommentRulesReported();
  }

  lemma BothCommentRulesReported()
    ensures HandleValidationErrors([CommentRequired, CommentLength]).Rejected?
    ensures HandleValidationErrors([CommentRequired, CommentLength]).errors
         == [FieldError("content", "Comment content is required"),
             FieldError("content", "Comment must be between 1 and 500 characters")]
  {
    var c := HandleValidationErrors([CommentRequired, CommentLength]);
    assert CommentRequired.Message() == "Comment content is required";
    assert CommentLength.Message() == "Comment must be between 1 and 500 characters";
    assert CommentRequired.Field() == "content" && CommentLength.Field() == "content";
    assert |c.errors| == 2;
    assert c.errors[0] == FieldError(CommentRequired.Field(), CommentRequired.Message());
    assert c.errors[1] == FieldError(CommentLength.Field(), CommentLength.Message());
  }

  lemma BlankCommentBreaksBothRules(content: Option<string>)
    requires forall i :: 0 <= i < |Str(content)| ==> IsSpace(Str(content)[i])
    ensures ValidateComment(content) == [CommentRequired, CommentLength]
  {
    AllSpaceTrimsEmpty(Str(content));
    EmptyCommentBreaksBothRules(content);
  }

  lemma AllSpaceTrimsEmpty(s: string)
    requires forall i :: 0 <= i < |s| ==> IsSpace(s[i])
    ensures Trim(s) == ""
  {
  }

  lemma EmptyCommentBreaksBothRules(content: Option<string>)
    requires Trim(Str(content)) == ""
    ensures ValidateComment(content) == [CommentRequired, CommentLength]
  {
    assert CommentRules("") == [CommentRequired, CommentLength];
  }

  /** The value a `trim()` sanitizer leaves in an optional field. */
  function TrimmedField(v: Option<string>): (r: Option<string>)
    ensures r.None? <==> v.None?
    ensures r.Some? ==> r.value == Trim(v.value)
  {
    if v.None? then None else Some(Trim(v.value))
  }
}
