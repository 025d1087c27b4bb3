/** The `posts` collection schema (backend/src/models/postModels.js): the
    stored record, the setters and validators the schema declares, the
    unique index on `slug`, and `Post.create` / `Post.exists` over an
    in-memory sequence of records. */
module PostSchema {
  import opened Wrappers
  import opened Text

  /** A stored post. `author` is the user reference, held as the string the
      handler passes in. */
  datatype Post = Post(
    title: string,
    excerpt: string,
    slug: string,
    author: string,
    categories: seq<string>,
    content: string,
    tags: seq<string>)

  /** The setters: `trim` on title, excerpt and slug, `lowercase` on slug.
      Content has neither and is kept verbatim. */
  function ApplySetters(p: Post): (q: Post)
    ensures IsNormalized(q)
    ensures q.author == p.author && q.categories == p.categories
    ensures q.content == p.content && q.tags == p.tags
  {
    p.(title := Trim(p.title), excerpt := Trim(p.excerpt), slug := NormalizeSlug(p.slug))
  }

  /** The shape the setters give a record. */
  predicate IsNormalized(p: Post) {
    IsTrimmed(p.title) && IsTrimmed(p.excerpt) && IsTrimmed(p.slug) && IsLower(p.slug)
  }

  /** The validators: `required` on title, excerpt, slug, author and content
      (on a string path it refuses the empty string), and the categories
      validator, which asks for at least one element. */
  predicate PassesValidators(p: Post) {
    && p.title != "" && p.excerpt != "" && p.slug != ""
    && p.author != "" && p.content != ""
    && |p.categories| > 0
  }

  /** What every stored record satisfies. */
  predicate ValidPost(p: Post) {
    IsNormalized(p) && PassesValidators(p)
  }

  /** `Post.exists({ slug })`. */
  predicate SlugTaken(posts: seq<Post>, slug: string) {
    exists i :: 0 <= i < |posts| && posts[i].slug == slug
  }

  /** The unique index on `slug`. */
  predicate SlugsUnique(posts: seq<Post>) {
    forall i, j :: 0 <= i < j < |posts| ==> posts[i].slug != posts[j].slug
  }

  /** The collection invariant: every record valid, no two sharing a slug. */
  predicate StoreInvariant(posts: seq<Post>) {
    (forall i :: 0 <= i < |posts| ==> ValidPost(posts[i])) && SlugsUnique(posts)
  }

  /** Error messages of a failed insert; neither mentions "HTTP error". */
  const ValidationFailed: string := "posts validation failed"
  const DuplicateKey: string := "E11000 duplicate key error collection: posts index: slug_1"

  /** `Post.create(fields)`: apply the setters, run the validators, then the
      unique index; on success the stored record is returned. */
  function Insert(posts: seq<Post>, p: Post): (r: Result<Post, string>)
    ensures r.Success? ==> ValidPost(r.value) && !SlugTaken(posts, r.value.slug)
    ensures r.Success? ==> r.value == ApplySetters(p)
    ensures r.Success? <==> PassesValidators(ApplySetters(p)) && !SlugTaken(posts, NormalizeSlug(p.slug))
    ensures r.Failure? ==> r.error in {ValidationFailed, DuplicateKey}
  {
    var q := ApplySetters(p);
    if !PassesValidators(q) then Failure(ValidationFailed)
    else if SlugTaken(posts, q.slug) then Failure(DuplicateKey)
    else Success(q)
  }

  // ---------------------------------------------------------------------
  // Properties of the schema

  /** A record is left unchanged by the setters exactly when it already has
      their shape: stored titles, excerpts and slugs are trimmed, and the
      slug lower-case. */
  lemma SettersFixpoint(p: Post)
    ensures ApplySetters(p) == p <==> IsNormalized(p)
    ensures ApplySetters(ApplySetters(p)) == ApplySetters(p)
  {
    NormalizeSlugFixpoint(p.slug);
    TrimFixpoint(p.title);
    TrimFixpoint(p.excerpt);
    var q := ApplySetters(p);
    NormalizeSlugFixpoint(q.slug);
    TrimFixpoint(q.title);
    TrimFixpoint(q.excerpt);
  }

  /** Appending a valid record whose slug is fresh keeps the collection
      invariant. */
  lemma {:induction false} AppendKeepsInvariant(posts: seq<Post>, q: Post)
    requires StoreInvariant(posts) && ValidPost(q) && !SlugTaken(posts, q.slug)
    ensures StoreInvariant(posts + [q])
  {
    var ps := posts + [q];
    assert ps[|posts|] == q;
    forall i | 0 <= i < |ps| ensures ValidPost(ps[i]) {
      if i < |posts| {
        assert ps[i] == posts[i];
      }
    }
    forall i, j | 0 <= i < j < |ps| ensures ps[i].slug != ps[j].slug {
      assert ps[i] == posts[i];
      if j < |posts| {
        assert ps[j] == posts[j];
      }
    }
  }

  /** A successful insert appends a record that keeps the collection
      invariant: valid records, unique slugs. */
  lemma InsertKeepsInvariant(posts: seq<Post>, p: Post)
    requires StoreInvariant(posts)
    ensures Insert(posts, p).Success? ==> StoreInvariant(posts + [Insert(posts, p).value])
  {
    var r := Insert(posts, p);
    if r.Success? {
      AppendKeepsInvariant(posts, r.value);
    }
  }

  /** A record whose slug is already in the collection is refused by the
      unique index, whatever its other fields. */
  lemma DuplicateRefused(posts: seq<Post>, p: Post)
    requires SlugTaken(posts, NormalizeSlug(p.slug))
    ensures Insert(posts, p).Failure?
  {
  }
}
