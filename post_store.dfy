/** The `posts` collection as a mutable store, and the create-post handler
    of backend/src/controllers/postControllers.js as the step-by-step
    method it is: each check returns early with its rejection, the last
    two steps query and then change the store. */
module PostStore {
  import opened Wrappers
  import opened Text
  import opened Request
  import opened PostSchema
  import opened CreatePost

  class PostCollection {
    /** The stored records, in insertion order. */
    var posts: seq<Post>

    /** Every stored record is valid and no two share a slug. */
    ghost predicate Valid()
      reads this
    {
      StoreInvariant(posts)
    }

    /** An empty collection. */
    constructor()
      ensures Valid() && posts == []
    {
      posts := [];
    }

    /** `Post.exists({ slug })`: a scan of the stored records. */
    method Exists(slug: string) returns (found: bool)
      ensures found <==> SlugTaken(posts, slug)
    {
      found := false;
      var i := 0;
      while i < |posts|
        invariant 0 <= i <= |posts|
        invariant !found
        invariant forall k :: 0 <= k < i ==> posts[k].slug != slug
      {
        if posts[i].slug == slug {
          return true;
        }
        i := i + 1;
      }
    }

    /** `Post.create(fields)`: the record is stored, after the setters, only
        when it passes the validators and the unique index. */
    method Create(p: Post) returns (r: Result<Post, string>)
      requires Valid()
      modifies this
      ensures Valid()
      ensures r == Insert(old(posts), p)
      ensures posts == if r.Success? then old(posts) + [r.value] else old(posts)
    {
      r := Insert(posts, p);
      if r.Success? {
        InsertKeepsInvariant(posts, p);
        posts := posts + [r.value];
      }
    }

    /** The handler: it answers as `Decide` does on the collection it is
        given, and the collection grows by the stored record on 201 and
        stays as it was on every other answer. */
    method HandleCreatePost(user: Option<User>, body: Body, isValidId: string -> bool) returns (out: Outcome)
      requires Valid()
      modifies this
      ensures Valid()
      ensures out == Decide(user, body, old(posts), isValidId)
      ensures posts == if out.Created? then old(posts) + [out.post] else old(posts)
    {
      if user.None? {
        return Rejected(401, Unauthorized);
      }
      var missing := MissingFields(body);
      if missing != [] {
        return Rejected(400, MissingPrefix + Join(missing, ", "));
      }
      var invalidStringField := FirstNonString(StringFields, body);
      if invalidStringField.Some? {
        return Rejected(400, invalidStringField.value + MustBeString);
      }
      var author := Field(body, "author");
      if !author.Str? {
        return Rejected(400, AuthorNotString);
      }
      if author.s != user.value.id {
        return Rejected(403, AuthorMismatch);
      }
      if !isValidId(author.s) {
        return Rejected(400, AuthorInvalid);
      }
      var categories := Field(body, "categories");
      if !categories.Arr? {
        return Rejected(400, CategoriesNotArray);
      }
      var sanitizedCategories := Sanitize(categories.elems);
      if sanitizedCategories == [] {
        return Rejected(400, NoValidCategory);
      }
      var tags := Field(body, "tags");
      var sanitizedTags := [];
      if tags.Arr? {
        sanitizedTags := Sanitize(tags.elems);
      }
      assert "title" in StringFields && "excerpt" in StringFields;
      assert "slug" in StringFields && "content" in StringFields;
      var record := Post(
        title := Trim(Field(body, "title").s),
        excerpt := Trim(Field(body, "excerpt").s),
        slug := NormalizeSlug(Field(body, "slug").s),
        author := author.s,
        categories := sanitizedCategories,
        content := Field(body, "content").s,
        tags := sanitizedTags);
      assert Validate(user.value, body, isValidId) == Success(record);
      DecideValidated(user.value, body, posts, isValidId);
      var slugExists := Exists(record.slug);
      if slugExists {
        return Rejected(409, SlugConflict);
      }
      var created := Create(record);
      match created
      case Success(stored) =>
        out := Created(stored);
      case Failure(message) =>
        out := Faulted(Forward(message));
    }
  }
}
