# Create-post handler of TerraQuakeApi, in Dafny

This project models the `createPost` handler of the TerraQuakeApi backend
(`backend/src/controllers/postControllers.js`) together with the `posts`
collection schema it writes to (`backend/src/models/postModels.js`), and
proves what the handler promises about its answers and about the collection.

The handler is an ordered pipeline over a dynamically typed request body.
It checks, in order:

1. authentication (401);
2. presence of the required fields (400, naming every missing field);
3. that title, excerpt, slug and content are strings (400, naming the first that is not);
4. that author is a string (400);
5. that author is the caller's own id (403);
6. that author is a valid object id (400);
7. that categories is an array (400), and that at least one category survives sanitisation (400);
8. tag sanitisation, which never fails;
9. that the normalised slug is not yet stored (409);
10. one insert into the collection (201), or the catch block.

Modules:

- `Wrappers`: `Option` and `Result`.
- `Text`: `String.prototype.trim` over the ECMAScript whitespace and line-terminator set, ASCII lower-casing, slug normalisation, substring search and `join`.
- `Request`: the request body as a map from field names to JavaScript values, and the map-then-filter sanitisation of categories and tags.
- `PostSchema`: the stored record, the schema's setters (`trim`, `lowercase`) and validators (`required`, the categories validator), the unique index on `slug`, the collection invariant and `Post.create` as a function over a sequence of records.
- `CreatePost`: the handler as a pure function `Decide` from (user, body, stored records) to an outcome, with the lemmas about it.
- `PostStore`: the collection as a class whose `posts` field changes only on a successful insert. `HandleCreatePost` is the handler as the early-return method the source is, and it is proved to answer as `Decide` does.

Outcomes are `Rejected(status, message)` (a `handleHttpError` call),
`Created(post)` (the 201 response with the stored record), and
`Faulted(forwarded)` (the catch block). `forwarded` is the error message
when it mentions "HTTP error", otherwise `None` (the responder's default).

A whitespace-only title, excerpt or slug passes the handler's presence check,
because that check compares only against `''`. After trimming, the built
record then holds `''` in that field. Mongoose's `required` validator on a
`String` path refuses the empty string. So `Post.create` rejects such a
record with a validation error, and the handler answers from its catch block
with the default message. The model follows this: such a request is
`Faulted(None)`, and nothing is stored (`FaultOnlyOnBlankText`). The stored
collection therefore never holds an empty title, excerpt or slug.

## Model

| member | source | states |
|---|---|---|
| Text.Trim | backend/src/controllers/postControllers.js:94-96 | the result of `trim()` has no whitespace at either end and is no longer than the input |
| Text.TrimIsSlice | backend/src/controllers/postControllers.js:94-96 | `trim()` returns the slice between a leading and a trailing run of whitespace |
| Text.TrimStart | backend/src/controllers/postControllers.js:94-96 | the leading whitespace run is dropped: the result is a suffix, what was removed is all whitespace, and the first remaining character is not whitespace |
| Text.TrimEnd | backend/src/controllers/postControllers.js:94-96 | the trailing whitespace run is dropped: the result is a prefix, what was removed is all whitespace, and the last remaining character is not whitespace |
| Text.TrimFixpoint | backend/src/models/postModels.js:5-21 | the `trim` setter leaves a string unchanged exactly when it has no whitespace at either end |
| Text.TrimIdempotent | backend/src/models/postModels.js:5-21 | trimming an already trimmed value changes nothing |
| Text.ToLower | backend/src/controllers/postControllers.js:88 | lower-casing keeps the length, maps each character by the case mapping and yields a lower-case string |
| Text.ToLowerFixpoint | backend/src/models/postModels.js:20 | the `lowercase` setter leaves a string unchanged exactly when it is already lower-case |
| Text.TrimLowerCommute | backend/src/controllers/postControllers.js:88 | trimming and lower-casing commute, so `slug.trim().toLowerCase()` equals lower-casing first |
| Text.NormalizeSlug | backend/src/controllers/postControllers.js:88 | a normalised slug is trimmed, lower-case and no longer than the input |
| Text.NormalizeSlugFixpoint | backend/src/models/postModels.js:15-21 | normalising leaves a slug unchanged exactly when it is trimmed and lower-case, and normalising twice is normalising once |
| Text.SlugExamples | backend/src/controllers/postControllers.js:88-91 | "My-Post", "MY-POST" and " my-post\t" all normalise to "my-post" |
| Text.ContainsHead | backend/src/controllers/postControllers.js:113 | a string that contains a non-empty needle contains the needle's first character |
| Request.Sanitize | backend/src/controllers/postControllers.js:73-75 | sanitised entries are trimmed and non-empty, and there are no more of them than input elements |
| Request.SanitizeIsMapThenFilter | backend/src/controllers/postControllers.js:73-75 | sanitisation is exactly the trim-strings map followed by the keep-non-empty-strings filter |
| Request.SanitizeAppend | backend/src/controllers/postControllers.js:73-75 | sanitisation works element by element and keeps input order: sanitising a concatenation concatenates the results |
| Request.SanitizeMembers | backend/src/controllers/postControllers.js:73-75 | a string is kept exactly when some element is a string whose trimmed form is that string and is non-empty; non-strings are dropped |
| Request.SanitizeClean | backend/src/controllers/postControllers.js:73-75 | a sequence of already trimmed, non-empty strings is kept unchanged |
| Request.SanitizeExample | backend/src/controllers/postControllers.js:73-75 | `[" Tech ", "", "News"]` sanitises to `["Tech", "News"]` |
| PostSchema.ApplySetters | backend/src/models/postModels.js:5-21 | after the setters, title and excerpt are trimmed, slug is trimmed and lower-case, and author, categories, content and tags are unchanged |
| PostSchema.SettersFixpoint | backend/src/models/postModels.js:5-21 | the setters leave a record unchanged exactly when it is already normalised, and applying them twice is applying them once |
| PostSchema.Insert | backend/src/models/postModels.js:3-49 | an insert succeeds exactly when the record after the setters passes the validators and its slug is not stored yet; the stored record is valid with a fresh slug; a failure is a validation or duplicate-key error |
| PostSchema.AppendKeepsInvariant | backend/src/models/postModels.js:15-42 | appending a valid record with a fresh slug keeps every record valid and all slugs distinct |
| PostSchema.InsertKeepsInvariant | backend/src/models/postModels.js:15-18 | a successful insert keeps every record valid and all slugs distinct |
| PostSchema.DuplicateRefused | backend/src/models/postModels.js:18 | the unique index refuses a record whose normalised slug is already stored |
| CreatePost.MissingAmong | backend/src/controllers/postControllers.js:17-24 | the missing-field list holds exactly the fields whose value is undefined, null or '' (for categories: not a non-empty array), in list order |
| CreatePost.FirstNonString | backend/src/controllers/postControllers.js:45-47 | `find` returns nothing exactly when every field is a string, and otherwise the first field in list order whose value is not a string |
| CreatePost.Unauthenticated | backend/src/controllers/postControllers.js:13-15 | without a user the answer is 401 "Unauthorized", whatever the body and the collection |
| CreatePost.ValidateStatuses | backend/src/controllers/postControllers.js:26-86 | every rejection by the checks on the body carries status 400 or 403 |
| CreatePost.RejectionStatuses | backend/src/controllers/postControllers.js:13-91 | every rejection carries status 400, 401, 403 or 409 |
| CreatePost.MissingFieldsRejected | backend/src/controllers/postControllers.js:26-32 | a non-empty missing list is answered with 400 and the message joining every missing field with ", " |
| CreatePost.PresencePassed | backend/src/controllers/postControllers.js:17-24 | after the presence check, categories is a non-empty array and no other required field is undefined, null or '' |
| CreatePost.TypeCheckRejected | backend/src/controllers/postControllers.js:45-55 | a non-string among title, excerpt, slug and content is answered with 400 naming the first such field |
| CreatePost.AuthorTypeRejected | backend/src/controllers/postControllers.js:57-59 | a non-string author is answered with 400 only after the other four fields passed the type check |
| CreatePost.AuthorMismatchForbidden | backend/src/controllers/postControllers.js:61-67 | once presence and types pass, the answer is 403 exactly when the author differs from the user's id, whatever the id-syntax test says |
| CreatePost.InvalidIdRejected | backend/src/controllers/postControllers.js:65-67 | the caller's own id failing the object-id test is answered with 400 |
| CreatePost.CategoriesArrayCheckUnreachable | backend/src/controllers/postControllers.js:20-21 | no request is answered with "categories must be an array": the presence check already refused every non-array |
| CreatePost.NoValidCategoryRejected | backend/src/controllers/postControllers.js:73-79 | categories that sanitise to nothing are answered with 400 |
| CreatePost.ValidateSucceedsIff | backend/src/controllers/postControllers.js:26-79 | the checks on the body pass exactly when nothing is missing, the four fields are strings, the author is the caller's valid id and some category survives sanitisation |
| CreatePost.ValidatedRecord | backend/src/controllers/postControllers.js:81-101 | the built record has trimmed title and excerpt, a trimmed lower-case slug, verbatim author and content, and the sanitised categories and tags |
| CreatePost.ValidatedRecordNormalized | backend/src/controllers/postControllers.js:93-101 | the built record already has the shape the schema's setters give |
| CreatePost.ValidatedFieldsPresent | backend/src/controllers/postControllers.js:17-24 | the built record's author, content and categories are non-empty |
| CreatePost.ValidatedRecordValidators | backend/src/controllers/postControllers.js:93-101 | the built record passes the schema validators exactly when its title, excerpt and slug are non-empty |
| CreatePost.SettersKeepNormalized | backend/src/models/postModels.js:5-21 | the setters store a normalised record as it is |
| CreatePost.PersistCreated | backend/src/controllers/postControllers.js:93-101 | a created normalised record is stored as it is, valid and with a fresh slug |
| CreatePost.PersistFaulted | backend/src/controllers/postControllers.js:93-115 | with a free slug, the insert of a normalised record fails exactly when it fails the validators, and the error is not forwarded |
| CreatePost.ValidationErrorNotForwarded | backend/src/controllers/postControllers.js:113 | the schema's validation error does not mention "HTTP error", so the catch block uses the default message |
| CreatePost.AcceptedRecord | backend/src/controllers/postControllers.js:93-108 | a 201 answer means every check passed and the stored record has trimmed title and excerpt, a normalised slug, verbatim author and content, the non-empty sanitised categories and the sanitised tags ([] when tags is not an array), and is valid with a fresh slug |
| CreatePost.AcceptedKeepsInvariant | backend/src/controllers/postControllers.js:93-101 | adding an accepted record keeps every record valid and all slugs distinct |
| CreatePost.DuplicateSlugConflict | backend/src/controllers/postControllers.js:88-91 | once the body passes every check, the answer is 409 exactly when the normalised slug is already stored |
| CreatePost.SecondCreateConflicts | backend/src/controllers/postControllers.js:88-91 | after a create, a second request whose slug differs only in case or surrounding whitespace is never created, and is answered with 409 once its body passes every check |
| CreatePost.DecideValidated | backend/src/controllers/postControllers.js:88-108 | once the body passes every check, the answer is the outcome of the duplicate check and insert of the built record |
| CreatePost.FaultIffBlankRecord | backend/src/controllers/postControllers.js:93-115 | with every check passed and the slug free, the answer is a fault exactly when the built title, excerpt or slug is empty, and its message is never forwarded |
| CreatePost.FaultOnlyOnBlankText | backend/src/controllers/postControllers.js:93-115 | with every check passed and the slug free, the answer is a fault exactly when the trimmed title, trimmed excerpt or normalised slug is empty |
| PostStore.PostCollection.constructor | backend/src/models/postModels.js:51 | a new collection is empty and satisfies the invariant |
| PostStore.PostCollection.Exists | backend/src/controllers/postControllers.js:88 | `Post.exists` reports exactly whether a stored record has the slug |
| PostStore.PostCollection.Create | backend/src/controllers/postControllers.js:93-101 | `Post.create` answers as the schema's insert does, keeps the invariant and appends the stored record on success only |
| PostStore.PostCollection.HandleCreatePost | backend/src/controllers/postControllers.js:12-116 | the handler answers as `Decide` does, keeps the invariant, appends exactly the created record on 201 and leaves the collection unchanged on every other answer |

## Left out

- The request as a whole: a missing or non-object `req.body` is modelled as an empty map. Every lookup is then undefined, as with `req.body?.[field]`. The destructuring after the presence check is never reached in that case.
- `isValidObjectId` from mongoose is a parameter `isValidId` of the handler. Its definition is not part of this model.
- Text.ToLower: maps ASCII letters only. The full Unicode case mapping of `toLowerCase` is not modelled.
- Text.Trim: the whitespace set is fixed as code points: the space separators of current Unicode plus the other ECMAScript whitespace and line terminators. Later Unicode changes are not followed.
- The author is stored as the string the request carries. The cast to an `ObjectId` and the `ref: 'users'` reference are not modelled.
- `buildResponse` and `handleHttpError` are not modelled. Only their effect is: the status and message of a rejection, the created record of a 201, and the forwarded-or-default message of a fault. The default status of the error responder is not modelled.
- `console.error` logging in the catch block.
- PostStore.PostCollection.Create: store faults other than schema validation and the duplicate key are not modelled. These include network errors, timeouts and errors whose message mentions "HTTP error", which the catch block would forward.
- async/await, and the race between the `Post.exists` check and `Post.create` under concurrent requests. The model is sequential, so the duplicate-key failure of `Post.create` is reachable only through the schema's insert, never through the handler.
- The `createdAt`/`updatedAt` timestamps and the disabled version key of the schema options.
- backend/src/routes/postsRoutes.js: router wiring only. It is not part of this model.
