/** The create-post handler of backend/src/controllers/postControllers.js
    as a pure function: an ordered sequence of checks over the request,
    each of which either rejects with a status and message or passes to the
    next, ending in one insert into the collection. */
module CreatePost {
  import opened Wrappers
  import opened Text
  import opened Request
  import opened PostSchema

  /** The authenticated user; `id` is `String(req.user._id)`. */
  datatype User = User(id: string)

  /** A `handleHttpError(res, message, status)` call. */
  datatype Rejection = Rejection(status: int, message: string)

  /** What the handler answers. `Created` is the 201 response wrapping the
      stored record; `Faulted` is the catch block, which answers with the
      error responder's default status and either the forwarded message or
      the default one. */
  datatype Outcome =
    | Rejected(status: int, message: string)
    | Created(post: Post)
    | Faulted(forwarded: Option<string>)

  const RequiredFields: seq<string> := ["title", "excerpt", "slug", "author", "categories", "content"]
  const StringFields: seq<string> := ["title", "excerpt", "slug", "content"]

  const Unauthorized: string := "Unauthorized"
  const MissingPrefix: string := "Missing required fields: "
  const MustBeString: string := " must be a string"
  const AuthorNotString: string := "author must be a string"
  const AuthorMismatch: string := "Authenticated user does not match author"
  const AuthorInvalid: string := "author must be a valid user id"
  const CategoriesNotArray: string := "categories must be an array"
  const NoValidCategory: string := "At least one valid category is required"
  const SlugConflict: string := "Slug already exists. Please choose another one."
  const HttpErrorMarker: string := "HTTP error"

  // ---------------------------------------------------------------------
  // Step 2: presence of the required fields

  /** The presence test: categories must be a non-empty array, every other
      field must not be undefined, null or the empty string. */
  predicate IsMissing(field: string, v: Value) {
    if field == "categories" then !(v.Arr? && |v.elems| > 0)
    else v.Undefined? || v.Null? || v == Str("")
  }

  /** `xs` is obtained from `ys` by deleting elements. */
  predicate IsSubsequence(xs: seq<string>, ys: seq<string>) {
    || xs == []
    || (ys != [] && ((xs[0] == ys[0] && IsSubsequence(xs[1..], ys[1..])) || IsSubsequence(xs, ys[1..])))
  }

  /** `fields.filter(...)` with the presence test: exactly the missing
      fields, in the order in which `fields` lists them. */
  function MissingAmong(fields: seq<string>, body: Body): (r: seq<string>)
    ensures forall f :: f in r <==> f in fields && IsMissing(f, Field(body, f))
    ensures IsSubsequence(r, fields)
  {
    if fields == [] then []
    else
      var rest := MissingAmong(fields[1..], body);
      if IsMissing(fields[0], Field(body, fields[0])) then
        assert ([fields[0]] + rest)[1..] == rest;
        [fields[0]] + rest
      else
        rest
  }

  function MissingFields(body: Body): seq<string> {
    MissingAmong(RequiredFields, body)
  }

  // ---------------------------------------------------------------------
  // Step 3: string-typed fields

  predicate AllStrings(fields: seq<string>, body: Body) {
    forall f :: f in fields ==> Field(body, f).Str?
  }

  /** `fields.find(f => typeof req.body[f] !== 'string')`: the first field,
      in list order, whose value is not a string. */
  function FirstNonString(fields: seq<string>, body: Body): (r: Option<string>)
    ensures r.None? <==> AllStrings(fields, body)
    ensures r.Some? ==> exists k :: 0 <= k < |fields| && fields[k] == r.value
                                    && !Field(body, r.value).Str? && AllStrings(fields[..k], body)
  {
    if fields == [] then None
    else if !Field(body, fields[0]).Str? then
      assert fields[..0] == [];
      Some(fields[0])
    else
      var r := FirstNonString(fields[1..], body);
      if r.Some? then
        var k :| 0 <= k < |fields[1..]| && fields[1..][k] == r.value
                 && !Field(body, r.value).Str? && AllStrings(fields[1..][..k], body);
        assert fields[..k + 1] == [fields[0]] + fields[1..][..k];
        r
      else
        r
  }

  // ---------------------------------------------------------------------
  // Steps 2 to 7: from the request to the fields passed to `Post.create`

  /** The checks that follow authentication, in source order, ending in the
      record the handler builds: title and excerpt trimmed, slug trimmed and
      lower-cased, author and content verbatim, sanitised categories and
      tags. */
  function Validate(user: User, body: Body, isValidId: string -> bool): Result<Post, Rejection> {
    var missing := MissingFields(body);
    if missing != [] then
      Failure(Rejection(400, MissingPrefix + Join(missing, ", ")))
    else
      match FirstNonString(StringFields, body)
      case Some(f) => Failure(Rejection(400, f + MustBeString))
      case None =>
        var author := Field(body, "author");
        if !author.Str? then Failure(Rejection(400, AuthorNotString))
        else if author.s != user.id then Failure(Rejection(403, AuthorMismatch))
        else if !isValidId(author.s) then Failure(Rejection(400, AuthorInvalid))
        else
          var categories := Field(body, "categories");
          if !categories.Arr? then Failure(Rejection(400, CategoriesNotArray))
          else
            var sanitized := Sanitize(categories.elems);
            if sanitized == [] then Failure(Rejection(400, NoValidCategory))
            else
              assert "title" in StringFields && "excerpt" in StringFields;
              assert "slug" in StringFields && "content" in StringFields;
              Success(Post(
                title := Trim(Field(body, "title").s),
                excerpt := Trim(Field(body, "excerpt").s),
                slug := NormalizeSlug(Field(body, "slug").s),
                author := author.s,
                categories := sanitized,
                content := Field(body, "content").s,
                tags := SanitizeTags(Field(body, "tags"))))
  }

  // ---------------------------------------------------------------------
  // Steps 8 and 9: duplicate check and insert

  /** The catch block's choice of message: forward it only when it mentions
      an HTTP error. */
  function Forward(message: string): Option<string> {
    if Contains(message, HttpErrorMarker) then Some(message) else None
  }

  /** `Post.exists` on the normalised slug, then `Post.create`. */
  function Persist(posts: seq<Post>, record: Post): Outcome {
    if SlugTaken(posts, record.slug) then Rejected(409, SlugConflict)
    else
      match Insert(posts, record)
      case Success(stored) => Created(stored)
      case Failure(message) => Faulted(Forward(message))
  }

  /** The whole handler. */
  function Decide(user: Option<User>, body: Body, posts: seq<Post>, isValidId: string -> bool): Outcome {
    if user.None? then Rejected(401, Unauthorized)
    else
      match Validate(user.value, body, isValidId)
      case Failure(rejection) => Rejected(rejection.status, rejection.message)
      case Success(record) => Persist(posts, record)
  }

  // ---------------------------------------------------------------------
  // Properties of the handler

  /** Without an authenticated user the answer is 401 "Unauthorized",
      whatever the body and the collection hold. */
  lemma Unauthenticated(body: Body, posts: seq<Post>, isValidId: string -> bool)
    ensures Decide(None, body, posts, isValidId) == Rejected(401, Unauthorized)
  {
  }

  /** A failed validation carries status 400 or 403. */
  lemma ValidateStatuses(user: User, body: Body, isValidId: string -> bool)
    ensures Validate(user, body, isValidId).Failure? ==>
            Validate(user, body, isValidId).error.status in {400, 403}
  {
  }

  /** Every rejection carries one of the statuses 400, 401, 403, 409. */
  lemma RejectionStatuses(user: Option<User>, body: Body, posts: seq<Post>, isValidId: string -> bool)
    ensures Decide(user, body, posts, isValidId).Rejected? ==>
            Decide(user, body, posts, isValidId).status in {400, 401, 403, 409}
  {
    if user.Some? {
      ValidateStatuses(user.value, body, isValidId);
      var v := Validate(user.value, body, isValidId);
      if v.Success? {
        DecideValidated(user.value, body, posts, isValidId);
      }
    }
  }

  /** A non-empty missing-field list is answered with 400 naming every
      missing field, before any other check of the body. */
  lemma MissingFieldsRejected(user: User, body: Body, posts: seq<Post>, isValidId: string -> bool)
    requires MissingFields(body) != []
    ensures Decide(Some(user), body, posts, isValidId)
            == Rejected(400, MissingPrefix + Join(MissingFields(body), ", "))
  {
  }

  /** Once the presence check passes, categories is a non-empty array and
      every other required field is neither undefined, null nor ''. */
  lemma PresencePassed(body: Body)
    requires MissingFields(body) == []
    ensures Field(body, "categories").Arr? && |Field(body, "categories").elems| > 0
    ensures forall f :: f in RequiredFields && f != "categories" ==>
              !Field(body, f).Undefined? && !Field(body, f).Null? && Field(body, f) != Str("")
  {
    assert "categories" in RequiredFields;
    forall f | f in RequiredFields && f != "categories"
      ensures !Field(body, f).Undefined? && !Field(body, f).Null? && Field(body, f) != Str("")
    {
      assert !IsMissing(f, Field(body, f));
    }
  }

  /** After presence, a field among title, excerpt, slug, content that is
      not a string is answered with 400 naming the first such field. */
  lemma TypeCheckRejected(user: User, body: Body, posts: seq<Post>, isValidId: string -> bool, f: string)
    requires MissingFields(body) == [] && FirstNonString(StringFields, body) == Some(f)
    ensures Decide(Some(user), body, posts, isValidId) == Rejected(400, f + MustBeString)
  {
  }

  /** The author's type is checked only after the four other string
      fields. */
  lemma AuthorTypeRejected(user: User, body: Body, posts: seq<Post>, isValidId: string -> bool)
    requires MissingFields(body) == [] && AllStrings(StringFields, body)
    requires !Field(body, "author").Str?
    ensures Decide(Some(user), body, posts, isValidId) == Rejected(400, AuthorNotString)
  {
  }

  /** Once presence and types pass, the answer is 403 exactly when the
      author differs from the user's id, whatever the id-syntax test says:
      the ownership check precedes it. */
  lemma AuthorMismatchForbidden(user: User, body: Body, posts: seq<Post>, isValidId: string -> bool, a: string)
    requires MissingFields(body) == [] && AllStrings(StringFields, body)
    requires Field(body, "author") == Str(a)
    ensures var out := Decide(Some(user), body, posts, isValidId);
            out.Rejected? && out.status == 403 <==> a != user.id
    ensures a != user.id ==> Decide(Some(user), body, posts, isValidId) == Rejected(403, AuthorMismatch)
  {
  }

  /** An author equal to the user's id that fails the id-syntax test is
      answered with 400. */
  lemma InvalidIdRejected(user: User, body: Body, posts: seq<Post>, isValidId: string -> bool)
    requires MissingFields(body) == [] && AllStrings(StringFields, body)
    requires Field(body, "author") == Str(user.id) && !isValidId(user.id)
    ensures Decide(Some(user), body, posts, isValidId) == Rejected(400, AuthorInvalid)
  {
  }

  /** The "categories must be an array" rejection is dead code: the
      presence check has already refused anything but a non-empty array. */
  lemma CategoriesArrayCheckUnreachable(user: Option<User>, body: Body, posts: seq<Post>, isValidId: string -> bool)
    ensures Decide(user, body, posts, isValidId) != Rejected(400, CategoriesNotArray)
  {
    if user.Some? {
      var missing := MissingFields(body);
      if missing != [] {
        assert (MissingPrefix + Join(missing, ", "))[0] == 'M' != CategoriesNotArray[0];
      } else {
        PresencePassed(body);
        var first := FirstNonString(StringFields, body);
        if first.Some? {
          assert first.value in StringFields;
          assert |first.value + MustBeString| != |CategoriesNotArray|;
        }
      }
    }
  }

  /** All categories that survive are trimmed and non-empty; if none does,
      the answer is 400. */
  lemma NoValidCategoryRejected(user: User, body: Body, posts: seq<Post>, isValidId: string -> bool)
    requires MissingFields(body) == [] && AllStrings(StringFields, body)
    requires Field(body, "author") == Str(user.id) && isValidId(user.id)
    requires Field(body, "categories").Arr? && Sanitize(Field(body, "categories").elems) == []
    ensures Decide(Some(user), body, posts, isValidId) == Rejected(400, NoValidCategory)
  {
  }

  /** Validation succeeds exactly when presence and types pass, the author
      is the user's own id and passes the id-syntax test, and at least one
      category survives sanitisation. */
  lemma ValidateSucceedsIff(user: User, body: Body, isValidId: string -> bool)
    ensures Validate(user, body, isValidId).Success? <==>
            && MissingFields(body) == [] && AllStrings(StringFields, body)
            && Field(body, "author") == Str(user.id) && isValidId(user.id)
            && Field(body, "categories").Arr? && Sanitize(Field(body, "categories").elems) != []
  {
  }

  /** The record a successful validation builds: title and excerpt trimmed,
      slug trimmed and lower-cased, author and content verbatim, sanitised
      categories and tags. */
  lemma ValidatedRecord(user: User, body: Body, isValidId: string -> bool)
    requires Validate(user, body, isValidId).Success?
    ensures var p := Validate(user, body, isValidId).value;
            && Field(body, "title").Str? && p.title == Trim(Field(body, "title").s)
            && Field(body, "excerpt").Str? && p.excerpt == Trim(Field(body, "excerpt").s)
            && Field(body, "slug").Str? && p.slug == NormalizeSlug(Field(body, "slug").s)
            && Field(body, "content").Str? && p.content == Field(body, "content").s
            && p.author == user.id
            && Field(body, "categories").Arr? && p.categories == Sanitize(Field(body, "categories").elems)
            && p.tags == SanitizeTags(Field(body, "tags"))
  {
    assert "title" in StringFields && "excerpt" in StringFields;
    assert "slug" in StringFields && "content" in StringFields;
  }

  /** The record the handler builds has the shape the schema setters give. */
  lemma ValidatedRecordNormalized(user: User, body: Body, isValidId: string -> bool)
    requires Validate(user, body, isValidId).Success?
    ensures IsNormalized(Validate(user, body, isValidId).value)
  {
  }

  /** The record the handler builds passes the schema validators exactly
      when its trimmed title, trimmed excerpt and normalised slug are
      non-empty: author and content are non-empty by the presence check,
      categories by the sanitisation check. */
  lemma ValidatedRecordValidators(user: User, body: Body, isValidId: string -> bool)
    requires Validate(user, body, isValidId).Success?
    ensures var p := Validate(user, body, isValidId).value;
            PassesValidators(p) <==> p.title != "" && p.excerpt != "" && p.slug != ""
  {
    ValidatedFieldsPresent(user, body, isValidId);
  }

  /** The author, content and categories of a built record are non-empty:
      author and content passed the presence check, categories the
      sanitisation check. */
  lemma ValidatedFieldsPresent(user: User, body: Body, isValidId: string -> bool)
    requires Validate(user, body, isValidId).Success?
    ensures var p := Validate(user, body, isValidId).value;
            p.author != "" && p.content != "" && p.categories != []
  {
    assert MissingFields(body) == [];
    PresencePassed(body);
    assert "author" in RequiredFields && "content" in RequiredFields;
    assert "content" in StringFields;
  }

  /** A record already in the setters' shape is stored as it is. */
  lemma SettersKeepNormalized(p: Post)
    requires IsNormalized(p)
    ensures ApplySetters(p) == p
  {
    SettersFixpoint(p);
  }

  /** Persisting a normalised record stores that very record, valid and
      with a fresh slug. */
  lemma PersistCreated(posts: seq<Post>, record: Post, p: Post)
    requires IsNormalized(record) && Persist(posts, record) == Created(p)
    ensures p == record && ValidPost(p) && !SlugTaken(posts, p.slug)
  {
    assert Insert(posts, record) == Success(p);
    SettersKeepNormalized(record);
  }

  /** With a free slug, persisting a normalised record fails exactly when
      it does not pass the validators, and the failure is never forwarded. */
  lemma PersistFaulted(posts: seq<Post>, record: Post)
    requires IsNormalized(record) && !SlugTaken(posts, record.slug)
    ensures Persist(posts, record).Faulted? <==> !PassesValidators(record)
    ensures Persist(posts, record).Faulted? ==> Persist(posts, record).forwarded == None
  {
    SettersKeepNormalized(record);
    ValidationErrorNotForwarded(ValidationFailed);
  }

  /** The schema's validation error does not mention an HTTP error, so the
      catch block replaces it with the default message. */
  lemma ValidationErrorNotForwarded(message: string)
    requires message == ValidationFailed
    ensures Forward(message) == None
  {
    assert 'H' !in message;
    if Contains(message, HttpErrorMarker) {
      ContainsHead(message, HttpErrorMarker);
    }
  }

  /** What an accepted request stores: every check passed, title and excerpt
      trimmed, slug trimmed and lower-cased, author and content verbatim,
      sanitised categories (at least one) and tags ([] when tags is not an
      array), and the record is valid with a slug not yet in the
      collection. */
  lemma AcceptedRecord(user: Option<User>, body: Body, posts: seq<Post>, isValidId: string -> bool, p: Post)
    requires Decide(user, body, posts, isValidId) == Created(p)
    ensures user.Some? && MissingFields(body) == [] && AllStrings(StringFields, body)
    ensures Field(body, "author") == Str(p.author) && p.author == user.value.id && isValidId(p.author)
    ensures Field(body, "title").Str? && p.title == Trim(Field(body, "title").s)
    ensures Field(body, "excerpt").Str? && p.excerpt == Trim(Field(body, "excerpt").s)
    ensures Field(body, "slug").Str? && p.slug == NormalizeSlug(Field(body, "slug").s)
    ensures Field(body, "content").Str? && p.content == Field(body, "content").s
    ensures Field(body, "categories").Arr? && p.categories == Sanitize(Field(body, "categories").elems)
    ensures p.categories != []
    ensures p.tags == SanitizeTags(Field(body, "tags"))
    ensures !Field(body, "tags").Arr? ==> p.tags == []
    ensures ValidPost(p) && !SlugTaken(posts, p.slug)
  {
    var u := user.value;
    var record := Validate(u, body, isValidId).value;
    ValidateSucceedsIff(u, body, isValidId);
    ValidatedRecord(u, body, isValidId);
    ValidatedRecordNormalized(u, body, isValidId);
    PersistCreated(posts, record, p);
  }

  /** Accepting a request keeps the collection invariant: every record
      valid, slugs unique. */
  lemma AcceptedKeepsInvariant(user: Option<User>, body: Body, posts: seq<Post>, isValidId: string -> bool, p: Post)
    requires StoreInvariant(posts)
    requires Decide(user, body, posts, isValidId) == Created(p)
    ensures StoreInvariant(posts + [p])
  {
    var record := Validate(user.value, body, isValidId).value;
    assert Insert(posts, record) == Success(p);
    InsertKeepsInvariant(posts, record);
  }

  /** Once every check of the body passes, the answer is 409 exactly when
      the normalised slug is already stored. */
  lemma DuplicateSlugConflict(user: User, body: Body, posts: seq<Post>, isValidId: string -> bool, slug: string)
    requires Validate(user, body, isValidId).Success?
    requires Field(body, "slug") == Str(slug)
    ensures Decide(Some(user), body, posts, isValidId) == Rejected(409, SlugConflict)
            <==> SlugTaken(posts, NormalizeSlug(slug))
  {
    ValidatedRecord(user, body, isValidId);
  }

  /** After a post is created, no request whose slug differs from it only in
      case or surrounding whitespace can create another; one that passes
      every check of the body is answered with 409. */
  lemma SecondCreateConflicts(
    user1: Option<User>, body1: Body, user2: Option<User>, body2: Body,
    posts: seq<Post>, isValidId: string -> bool, p: Post, slug1: string, slug2: string)
    requires Decide(user1, body1, posts, isValidId) == Created(p)
    requires Field(body1, "slug") == Str(slug1) && Field(body2, "slug") == Str(slug2)
    requires NormalizeSlug(slug1) == NormalizeSlug(slug2)
    ensures !Decide(user2, body2, posts + [p], isValidId).Created?
    ensures user2.Some? && Validate(user2.value, body2, isValidId).Success? ==>
            Decide(user2, body2, posts + [p], isValidId) == Rejected(409, SlugConflict)
  {
    AcceptedRecord(user1, body1, posts, isValidId, p);
    var taken := posts + [p];
    assert taken[|posts|] == p;
    assert SlugTaken(taken, NormalizeSlug(slug2));
    if user2.Some? && Validate(user2.value, body2, isValidId).Success? {
      DuplicateSlugConflict(user2.value, body2, taken, isValidId, slug2);
    }
  }

  /** Once validation succeeds, the answer is whatever persisting the built
      record gives. */
  lemma DecideValidated(user: User, body: Body, posts: seq<Post>, isValidId: string -> bool)
    requires Validate(user, body, isValidId).Success?
    ensures Decide(Some(user), body, posts, isValidId) == Persist(posts, Validate(user, body, isValidId).value)
  {
  }

  /** With every check passed and the slug free, the answer is a fault
      exactly when the built record has an empty title, excerpt or slug, and
      the fault's message is never forwarded. */
  lemma FaultIffBlankRecord(user: User, body: Body, posts: seq<Post>, isValidId: string -> bool)
    requires Validate(user, body, isValidId).Success?
    requires !SlugTaken(posts, Validate(user, body, isValidId).value.slug)
    ensures var p := Validate(user, body, isValidId).value;
            Decide(Some(user), body, posts, isValidId).Faulted? <==> p.title == "" || p.excerpt == "" || p.slug == ""
    ensures Decide(Some(user), body, posts, isValidId).Faulted? ==>
            Decide(Some(user), body, posts, isValidId).forwarded == None
  {
    var record := Validate(user, body, isValidId).value;
    DecideValidated(user, body, posts, isValidId);
    ValidatedRecordNormalized(user, body, isValidId);
    ValidatedRecordValidators(user, body, isValidId);
    PersistFaulted(posts, record);
  }

  /** With every check passed and the slug free, the insert fails exactly
      when the trimmed title, the trimmed excerpt or the normalised slug is
      empty (the schema's `required` refuses ''); the catch block then
      answers with the default message, since the store's error does not
      mention an HTTP error. */
  lemma FaultOnlyOnBlankText(
    user: User, body: Body, posts: seq<Post>, isValidId: string -> bool,
    title: string, excerpt: string, slug: string)
    requires Validate(user, body, isValidId).Success?
    requires Field(body, "title") == Str(title) && Field(body, "excerpt") == Str(excerpt)
    requires Field(body, "slug") == Str(slug)
    requires !SlugTaken(posts, NormalizeSlug(slug))
    ensures Decide(Some(user), body, posts, isValidId).Faulted?
            <==> Trim(title) == "" || Trim(excerpt) == "" || NormalizeSlug(slug) == ""
    ensures Decide(Some(user), body, posts, isValidId).Faulted? ==>
            Decide(Some(user), body, posts, isValidId).forwarded == None
  {
    ValidatedRecord(user, body, isValidId);
    FaultIffBlankRecord(user, body, posts, isValidId);
  }
}
