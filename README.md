# Blog backend: document graph, cache and account flows in Dafny

This project models the core of a blog backend written in TypeScript on
Express, Mongoose and Redis. Blogs, comments, replies and users are stored
as MongoDB documents. Blogs are denormalised by `populateBlog` and cached
in Redis. Accounts are created and changed through mailed activation codes.
A middleware authenticates requests from JWT cookies through a read-through
user cache.

The model has the following parts:

- **Schemas** (`BlogModel`, `CommentModel`, `ReplyModel`, `UserModel`). Each
  document is a datatype. The Mongoose validators (`required`, `enum`, the
  cast to `String`) are a `Valid` predicate, and the creation defaults
  (`views: 0`, `likes: 0`, `role: 'user'`) are a `New` function.
- **Store** (`Store`). The four collections are maps from id to document.
  Each cascade a handler performs is a function on them: push a child id
  onto the parent's array, or filter it out. `RefLists` holds `push`,
  `filter` and what populate keeps of an array.
- **Projection** (`Projection`). `populateBlog` is a pure function from the
  store to the view the handlers cache. A missing single reference becomes
  `null`, and a missing array element is dropped.
- **State** (`Database.Db`). One object holds the collections, the Redis
  keyspace (`Cache`) and an event log. The log records responses, cache
  writes, cache deletions, mails and cookie issuance, in the order the
  handler performs them. Every handler, `getComment` included, is a method
  that takes that object and changes its fields. Its `ensures` gives the
  status, the new store, the new cache and the new log for each branch of
  the handler.
- **Activation codes** (`Activation`): the arithmetic of
  `createActivationToken`, the payload it signs, and the loose comparison
  `!=` that the activation handlers apply to the code they receive.
- **Authentication** (`AuthMiddleware`): the decision procedure of
  `checkAuthAndRefreshToken`.
- **Scenarios** (`Scenarios`): request sequences applied to a small
  database, with their outcomes proved, showing how the handlers interact.

Several behaviours of the code are stated and proved as they are written:

- Blog handlers cache a blog under its bare id. Comment and reply handlers
  refresh it under `blog-<id>`. `getSingleBlog` reads only the bare id, so
  it keeps serving the blog as it was before a comment was added
  (`Cache.KeySchemesDisjoint`, `Scenarios.StaleReadAfterComment`).
- The blog schema declares `coverImage` a required `String`. `createBlog`
  either leaves it unset or assigns the `{url, public_id}` object of an
  upload, which fails the cast. So `createBlog` always answers 400.
  `updateBlog` with an upload also answers 400. `updateUser` with a picture
  upload answers 500. When that request also changes the email, the
  activation mail has already gone out.
- A comment's `likes` is a Number that defaults to 0. The guard
  `comment.likes && comment.likes.push(...)` therefore never records a
  like. No handler writes a comment's `likes`, so every comment stored
  through the handlers keeps 0 and `likeComment` never answers 400
  (`Store.CommentLikesZero` and the lemmas beside it). Reply likes are
  pushed with no duplicate check.
- The activation payload nests the credentials under `user`. The activation
  handlers of the user controller read `email` and `password` from the top
  level of the payload, where they are `undefined`. So once the token, code
  and user checks pass (before that they answer 500, 400 or 404),
  `activateNewEmail` always answers 500, and the two password handlers
  remove the password and answer 200. `activateForgetPassword` never reads
  `newPassword`.
- The activation code lies between 200000 and 1099999. It has seven digits
  exactly when `Math.random()` returns at least 8/9.
- Users and blogs share one Redis keyspace. A `getSingleBlog` request for a
  user's id, when nothing is cached under that id yet, caches `null` there.
  The middleware then authenticates that user's access token with a `null`
  principal (`Scenarios.NullBlogShadowsUser`). When the middleware has
  cached the user first, `getSingleBlog` for that id answers 200 with the
  user document, password hash included
  (`Scenarios.CachedUserServedAsBlog`). A user that has been deleted keeps
  authenticating from its cached copy.

External services are parameters:

- `Math.random()` is a real `r` in [0, 1).
- `jwt.verify` is an oracle. It either gives back the signed payload or
  says the token is invalid.
- `comparePassword` is an oracle `Option<bool>`. The user schema defines no
  such method, so `None` stands for the call throwing.
- An upload result is an `Option<Upload>`.
- The id of a new document is a parameter, required to be fresh.
- Request strings use `""` for a missing field. Tags arrive already parsed.

## Model

| member | source | states |
|---|---|---|
| Common.UploadedImage | backend/src/api/v1/controllers/blog.controller.ts:74-85 | an upload result yields exactly the `{url, public_id}` object built from `secure_url` and `public_id`, and that object fails both the String cast and the required validator; no upload yields nothing |
| RefLists.RemoveAll | backend/src/api/v1/controllers/comment.controller.ts:106-108 | filtering keeps exactly the elements different from the removed id and never lengthens the array |
| RefLists.Present | backend/src/api/v1/controllers/blog.controller.ts:15-18 | populate keeps exactly the references whose documents exist |
| RefLists.PushCount | backend/src/api/v1/controllers/reply.controller.ts:115 | a push adds one occurrence of the pushed id and leaves every other id's count alone, with no duplicate check |
| RefLists.PushFreshOnce | backend/src/api/v1/controllers/comment.controller.ts:33 | pushing an absent id leaves it once, at the end |
| RefLists.RemoveAllCount | backend/src/api/v1/controllers/comment.controller.ts:106-108 | after filtering, the id occurs zero times and every other id as often as before |
| RefLists.RemoveAllAppend | backend/src/api/v1/controllers/reply.controller.ts:72 | filtering distributes over concatenation, so the kept ids stay in their order |
| RefLists.RemoveAllAbsent | backend/src/api/v1/controllers/reply.controller.ts:72 | filtering out an id that does not occur leaves the array unchanged |
| RefLists.PushThenRemoveAll | backend/src/api/v1/controllers/reply.controller.ts:28-72 | filtering out a freshly pushed id restores the array |
| RefLists.PresentRemoveAll | backend/src/api/v1/controllers/comment.controller.ts:106-119 | populating the filtered array against the store without the deleted document gives the filtered populate of the original |
| BlogModel.New | backend/src/api/v1/models/blog.model.ts:15-58 | a created blog has views 0 and no likes or comments, and is valid iff title, category and content are non-empty strings and the cover image is non-empty text |
| BlogModel.CoverImageMustBeText | backend/src/api/v1/models/blog.model.ts:34-37 | a blog whose cover image is missing or an object never validates |
| BlogModel.ApplyUpdate | backend/src/api/v1/controllers/blog.controller.ts:157-184 | given title, category, content and cover image overwrite and absent ones keep their value; tags are replaced; author, views, likes and comments are kept; a valid blog under a valid update stays valid |
| BlogModel.CoverImageUpdateRejected | backend/src/api/v1/controllers/blog.controller.ts:173-184 | an update carrying an uploaded cover image fails the update validators |
| CommentModel.New | backend/src/api/v1/models/comment.model.ts:11-38 | a created comment has likes 0 and no replies, with the given blog and user, and is valid iff its content is non-empty |
| CommentModel.NewCommentSkipsLike | backend/src/api/v1/controllers/comment.controller.ts:147 | the like guard is false on a comment with the default likes 0 |
| ReplyModel.New | backend/src/api/v1/models/reply.model.ts:10-33 | a created reply has no likes, the given comment back-reference and user, and is valid iff its content is non-empty |
| UserModel.New | backend/src/api/v1/models/user.model.ts:12-38 | a created user has role `user` and no picture or bio, and is valid iff name and email are non-empty |
| UserModel.DuplicateEmailsAdmitted | backend/src/api/v1/models/user.model.ts:17-20 | two different valid users may share an email |
| UserModel.PictureObjectRejected | backend/src/api/v1/controllers/user.controller.ts:105-107 | a user whose picture is an uploaded object fails validation |
| Store.AddComment | backend/src/api/v1/controllers/comment.controller.ts:25-35 | createComment's cascade stores the new comment and appends its id at the end of that blog's comments; no other blog, no other blog field, no user and no reply changes |
| Store.RemoveComment | backend/src/api/v1/controllers/comment.controller.ts:104-112 | deleteComment's cascade deletes the comment document and leaves its id nowhere in that blog's comments (which never grow); no other blog, no other field, no user and no reply changes |
| Store.AddReply | backend/src/api/v1/controllers/reply.controller.ts:24-30 | createReply's cascade stores the new reply and appends its id at the end of that comment's replies; nothing else changes |
| Store.RemoveReply | backend/src/api/v1/controllers/reply.controller.ts:69-77 | deleteReply's cascade deletes the reply document and leaves its id nowhere in the given comment's replies (which never grow); nothing else changes |
| Store.AddReplyLike | backend/src/api/v1/controllers/reply.controller.ts:115-117 | likeReply appends the user at the end of that reply's likes; nothing else changes |
| Store.AddCommentKeepsValid | backend/src/api/v1/controllers/comment.controller.ts:25-35 | createComment's cascade keeps every stored document valid when the new comment is |
| Store.RemoveCommentKeepsValid | backend/src/api/v1/controllers/comment.controller.ts:104-112 | deleteComment's cascade keeps every stored document valid |
| Store.AddReplyKeepsValid | backend/src/api/v1/controllers/reply.controller.ts:24-30 | createReply's cascade keeps every stored document valid when the new reply is |
| Store.RemoveReplyKeepsValid | backend/src/api/v1/controllers/reply.controller.ts:69-77 | deleteReply's cascade keeps every stored document valid |
| Store.AddReplyLikeKeepsValid | backend/src/api/v1/controllers/reply.controller.ts:115-117 | likeReply's cascade keeps every stored document valid |
| Store.StoredCommentSkipsLike | backend/src/api/v1/controllers/comment.controller.ts:147 | on a store where every comment has likes 0, likeComment's guard is false for every stored comment, so it never answers 400 and never records a like |
| Store.AddCommentKeepsLikesZero | backend/src/api/v1/controllers/comment.controller.ts:25-35 | createComment stores a comment with likes 0 and changes no other comment's likes |
| Store.RemoveCommentKeepsLikesZero | backend/src/api/v1/controllers/comment.controller.ts:104-112 | deleteComment changes no remaining comment's likes |
| Store.AddReplyKeepsLikesZero | backend/src/api/v1/controllers/reply.controller.ts:24-30 | createReply changes no comment's likes |
| Store.RemoveReplyKeepsLikesZero | backend/src/api/v1/controllers/reply.controller.ts:69-77 | deleteReply changes no comment's likes |
| Store.AddReplyLikeKeepsLikesZero | backend/src/api/v1/controllers/reply.controller.ts:115-117 | likeReply changes no comment's likes |
| Store.AddCommentAppendsOnce | backend/src/api/v1/controllers/comment.controller.ts:25-35 | creating a comment appends its id once at the end of the blog's comments and keeps every other id's count |
| Store.RemoveCommentDropsAll | backend/src/api/v1/controllers/comment.controller.ts:104-112 | deleting a comment removes every occurrence of its id, keeps the other ids' counts, deletes the document and keeps all replies |
| Store.AddThenRemoveComment | backend/src/api/v1/controllers/comment.controller.ts:25-112 | deleting a freshly created comment restores the store exactly |
| Store.AddReplyAppendsOnce | backend/src/api/v1/controllers/reply.controller.ts:24-30 | creating a reply appends its id once at the end of the comment's replies and keeps every other id's count |
| Store.RemoveReplyDropsAll | backend/src/api/v1/controllers/reply.controller.ts:69-77 | deleting a reply removes every occurrence of its id from the given comment, keeps the other ids' counts and deletes the document |
| Store.AddThenRemoveReply | backend/src/api/v1/controllers/reply.controller.ts:24-77 | deleting a freshly created reply restores the store exactly |
| Store.ReplyLikedTwice | backend/src/api/v1/controllers/reply.controller.ts:115-117 | two likes by one user add two entries |
| Store.WriteKeepsEmailsUnique | backend/src/api/v1/controllers/user.controller.ts:63-107 | writing a user whose email no other user holds keeps emails unique |
| Store.UntakenEmailKeepsUnique | backend/src/api/v1/controllers/auth.controller.ts:100-113 | adding a user whose email `findOne` did not find keeps emails unique |
| Projection.PopulateBlog | backend/src/api/v1/controllers/blog.controller.ts:9-45 | the populate yields a view exactly when the blog exists (`null` otherwise) |
| Projection.UserRefsResolve | backend/src/api/v1/controllers/blog.controller.ts:15-18 | populated likers are the existing user refs in order, each projected to name and picture |
| Projection.ReplyRefsResolve | backend/src/api/v1/controllers/blog.controller.ts:30-41 | populated replies are the existing reply refs in order, each with its user and likers resolved |
| Projection.CommentRefsResolve | backend/src/api/v1/controllers/blog.controller.ts:19-43 | populated comments are the existing comment refs in order, each with its user, likes and replies resolved |
| Projection.PopulateBlogResolves | backend/src/api/v1/controllers/blog.controller.ts:9-45 | the view of a stored blog keeps its own fields and resolves the author (`null` when missing); likers and comments are the existing refs in order; each comment keeps its blog, content and likes, with its user resolved and its existing replies in order; each reply keeps its comment and content, with its user resolved and its existing likers in order; every user is projected to name and picture |
| Projection.ViewAfterAddComment | backend/src/api/v1/controllers/comment.controller.ts:25-39 | after createComment's cascade the populated blog is the old one with the new comment's view appended |
| Projection.ViewAfterRemoveComment | backend/src/api/v1/controllers/comment.controller.ts:104-120 | after deleteComment's cascade the populated blog lists the old comments in order without the deleted one |
| Projection.ViewAfterAddReply | backend/src/api/v1/controllers/reply.controller.ts:24-33 | after createReply's cascade the comment's view has the new reply's view appended |
| Activation.ActivationCode | backend/src/utils/createActivationToken.ts:12-14 | the code lies between 200000 and 1099999 |
| Activation.CreateActivationToken | backend/src/utils/createActivationToken.ts:11-24 | the payload carries the given user, and the returned code equals the code in the payload |
| Activation.SevenDigitCodes | backend/src/utils/createActivationToken.ts:12-14 | the code has seven digits iff r is at least 8/9, and six otherwise |
| Activation.BothLengthsOccur | backend/src/utils/createActivationToken.ts:12-14 | six-digit and seven-digit codes both occur |
| Activation.DecimalString | backend/src/api/v1/controllers/auth.controller.ts:54 | the code as interpolated into the mail subject is a non-empty string of digits |
| Activation.DecimalRoundTrip | backend/src/api/v1/controllers/auth.controller.ts:54 | reading back the mailed decimal text gives the code |
| Activation.LooselyEqual | backend/src/api/v1/controllers/auth.controller.ts:91 | `payloadCode != supplied` is false for the code as a number, as its decimal text and even with a leading zero; a missing code never matches; a number matches only itself; a non-empty string matches exactly when it is all digits denoting the code, leading zeros included |
| Activation.MailedCodeAccepted | backend/src/api/v1/controllers/auth.controller.ts:91 | the mailed code passes the loose comparison whether typed as text or as a number, and one supplied value passes it for at most one code |
| Activation.TopLevel | backend/src/utils/createActivationToken.ts:15-16 | the signed payload has no top-level property besides `user` and `activationCode` |
| Activation.AssignToStringPath | backend/src/api/v1/controllers/user.controller.ts:148 | assigning `undefined` unsets a String path, and only an object fails the cast |
| Activation.CredentialsAreNested | backend/src/api/v1/controllers/user.controller.ts:261 | top-level `email` and `password` of the payload are `undefined`, and assigning them unsets the path |
| Cache.ChildRefreshKey | backend/src/api/v1/controllers/reply.controller.ts:33 | the refresh key is the id prefixed with `blog-` (five characters longer) |
| Cache.KeySchemesDisjoint | backend/src/api/v1/controllers/comment.controller.ts:38-39 | for ids of equal length, a `blog-<id>` refresh key is never a key getSingleBlog reads or a cached user's key |
| Cache.BlogEntry | backend/src/api/v1/controllers/blog.controller.ts:129 | blog entries are blog snapshots set with the seven-day expiry |
| BlogController.RequestedBlog | backend/src/api/v1/controllers/blog.controller.ts:66-85 | the document built has the requesting user as author, the given fields, tags defaulting to empty and the upload object as cover image, and never validates |
| BlogController.InsertBlog | backend/src/api/v1/controllers/blog.controller.ts:87-105 | a valid blog is stored, 201 is sent, and then the populated blog is cached under its bare id for seven days; an invalid one gives 400 and changes nothing |
| BlogController.CreateBlog | backend/src/api/v1/controllers/blog.controller.ts:60-106 | the answer is always 400 and nothing but the response happens |
| BlogController.GetSingleBlog | backend/src/api/v1/controllers/blog.controller.ts:113-140 | a hit returns the cached value without a store read or write; a miss caches the populated blog (`null` for an unknown id) for seven days before answering; always 200 |
| BlogController.UpdateBlog | backend/src/api/v1/controllers/blog.controller.ts:144-198 | 404 for an unknown blog; a valid update is applied (tags reset to none when none are given), 200 sent, then the bare-id entry refreshed; an invalid one or an upload gives 400 and changes nothing |
| BlogController.DeleteBlog | backend/src/api/v1/controllers/blog.controller.ts:201-229 | 404 for an unknown blog; otherwise the blog is removed, 200 sent, then the bare-id entry deleted; comments and any `blog-<id>` entry are untouched |
| CommentController.CreateComment | backend/src/api/v1/controllers/comment.controller.ts:13-57 | 404 for an unknown blog, 400 for empty content; otherwise the comment is created and appended, the view refreshed under `blog-<id>` before 201, and the bare-id entry left as it was |
| CommentController.GetComment | backend/src/api/v1/controllers/comment.controller.ts:60-81 | returns the stored comment with 200, or 404 and nothing; only the response is recorded |
| CommentController.DeleteComment | backend/src/api/v1/controllers/comment.controller.ts:83-134 | the comment, then the blog, must exist (404 each); otherwise every occurrence is filtered out in order, the document deleted with its replies kept, 200 sent, then `blog-<id>` refreshed |
| CommentController.LikeComment | backend/src/api/v1/controllers/comment.controller.ts:137-171 | the store never changes; 404 for an unknown comment, 400 when likes is non-zero, otherwise 200 then a `blog-<id>` refresh |
| ReplyController.CreateReply | backend/src/api/v1/controllers/reply.controller.ts:12-46 | 404 for an unknown comment, 400 for empty content; otherwise the reply is created with its back-reference and appended, and `blog-<comment.blog>` refreshed before 201 |
| ReplyController.DeleteReply | backend/src/api/v1/controllers/reply.controller.ts:49-92 | the reply, then the comment, must exist (404 each); otherwise the id is filtered out of the route's comment, the reply deleted, and `blog-<comment.blog>` refreshed before 200 |
| ReplyController.LikeReply | backend/src/api/v1/controllers/reply.controller.ts:95-132 | the comment, then the reply, must exist (404 each); otherwise the user is pushed onto the likes (count + 1) and `blog-<comment.blog>` refreshed before 200 |
| AuthController.RegisterUser | backend/src/api/v1/controllers/auth.controller.ts:16-72 | a taken email gives 400; otherwise no user is created, the code is mailed, and 200 returns a token carrying name, email and password with the same code |
| AuthController.ActivateUser | backend/src/api/v1/controllers/auth.controller.ts:80-128 | invalid token 500, loosely unequal code 400, taken email 400; otherwise exactly one user with the nested credentials is added (200) or validation fails (500); unique emails stay unique |
| UserController.SaveUser | backend/src/api/v1/controllers/user.controller.ts:107-115 | a valid user is saved with 200; a failed cast or validation gives 500 and saves nothing |
| UserController.MailTarget | backend/src/api/v1/controllers/user.controller.ts:95 | the mail goes to the given email, or to the stored email when none is given, and never to an empty address |
| UserController.Merged | backend/src/api/v1/controllers/user.controller.ts:102-105 | name, email, bio and picture take the given value when non-empty and keep the stored value otherwise; role and password are kept |
| UserController.UpdateUser | backend/src/api/v1/controllers/user.controller.ts:32-116 | 404 for an unknown user; a changed email that is taken gives 400; otherwise a changed email gets a mail and is saved at once (200), or the upload fails the cast (500); unique emails stay unique |
| UserController.ActivateNewEmail | backend/src/api/v1/controllers/user.controller.ts:119-161 | the store never changes: 500 for an invalid token, 400 for a wrong code, 404 for an unknown user, otherwise 500 |
| UserController.ActivatePasswordChange | backend/src/api/v1/controllers/user.controller.ts:232-272 | 500, 400 or 404 as the guards fail; otherwise the password is removed and 200 sent |
| UserController.ActivateForgetPassword | backend/src/api/v1/controllers/user.controller.ts:335-375 | the same outcome as activatePasswordChange, whatever `newPassword` is |
| UserController.UpdatePassword | backend/src/api/v1/controllers/user.controller.ts:164-229 | the store never changes; missing old password 400, unknown user 404, comparison throwing 500, wrong password 400, otherwise a code mailed to the user and 200 |
| UserController.ForgetPassword | backend/src/api/v1/controllers/user.controller.ts:275-332 | the store never changes; missing email 400, unknown email 404, otherwise a code mailed to it and 200 |
| UserController.DeleteAccount | backend/src/api/v1/controllers/user.controller.ts:378-401 | 404 for an unknown user; otherwise only that user is removed, 200 sent, and the cache left as it was |
| AuthMiddleware.WithoutPassword | backend/src/utils/setTokenCookie.ts:34 | a truthy password is cleared and nothing else of the principal changes |
| AuthMiddleware.Resolve | backend/src/middlewares/checkAuthAndRefreshToken.ts:27-37 | a hit returns the cached value without a store read; a miss caches the stored user with no expiry; an unknown user yields nothing |
| AuthMiddleware.CheckAuthAndRefreshToken | backend/src/middlewares/checkAuthAndRefreshToken.ts:6-73 | no cookie 401; an access token decides alone (rejected 401, cached or stored user proceeds, unknown user no answer); a refresh token also reissues cookies and answers 200, or 401 for a cached `null`; the store is never written |
| Scenarios.StaleReadAfterComment | backend/src/api/v1/controllers/blog.controller.ts:117-125 | after a comment is created (201), getSingleBlog still serves the blog without it, while `blog-b1` holds the blog with exactly that comment |
| Scenarios.CommentLikeNotRecorded | backend/src/api/v1/controllers/comment.controller.ts:147 | a like on a new comment answers 200 and leaves its likes at 0 |
| Scenarios.ReplyLikedTwice | backend/src/api/v1/controllers/reply.controller.ts:115 | two likes of a reply by one user both answer 200 and leave two entries |
| Scenarios.RegisterTwiceActivateTwice | backend/src/api/v1/controllers/auth.controller.ts:100-113 | two registrations for one email both succeed; the first activation with the mailed code creates the user, the second gets 400, and emails stay unique |
| Scenarios.DeletedAccountStillAuthenticates | backend/src/middlewares/checkAuthAndRefreshToken.ts:27-30 | after the account is deleted, its access token still proceeds with the cached user |
| Scenarios.CachedUserServedAsBlog | backend/src/api/v1/controllers/blog.controller.ts:117-125 | after the middleware has cached a user, getSingleBlog for that id answers 200 with the cached user document, password hash included |
| Scenarios.NullBlogShadowsUser | backend/src/api/v1/controllers/blog.controller.ts:127-129 | getSingleBlog for a user's id caches `null`; the access token then proceeds with a `null` principal and the refresh token gets 401 |

## Left out

- Route wiring and server bootstrap: they hold no logic. The routers and
  `index.ts` are not part of this model, and no blog listing is modelled.
- Connection setup for MongoDB and Redis, and failures of either store:
  every store and cache call is taken to succeed.
- Concurrency: races between handlers, and the "headers already sent"
  failure when cache work after a response throws. Only the sequential
  order of responses and cache events is modelled.
- Cache expiry: an entry records its `EX` value, but there is no clock and
  entries never expire.
- JWT signing, the token's `iat`/`exp` and the 30-minute expiry:
  `jwt.verify` is an oracle.
- Cookie attributes and the signed cookie values in `setTokenCookie`: only
  the fact that cookies are issued is recorded.
- `comparePassword` and password hashing: an oracle, since the user schema
  defines neither.
- Image upload and deletion on the image host: the upload result is a
  parameter, and deletion is not modelled.
- Mail delivery and template rendering: a mail is an event with its
  recipient and code, and it never fails.
- ObjectId syntax and `CastError` on malformed ids: ids are plain strings,
  and an id that is not stored behaves as a missing document.
- Timestamps (`createdAt`, `updatedAt`).
- `JSON.parse` of the tags field: tags arrive already parsed, and a
  malformed value is not modelled.
- `deleteTokenCookie` and the `me` handler: neither is part of the core.
- The activation tokens the user controller creates are never returned to
  the client. The model mails the code and drops the token.
- UserController.UpdateUser: an absent `email` field is modelled as `""`.
  What `findOne({ email: undefined })` matches depends on how the driver
  treats `undefined`, and that is not modelled.
- AuthController.RegisterUser: the same holds for its `findOne({ email })`
  with an absent `email`, which is modelled as `""`.
- AuthController.ActivateUser: the same holds for its `findOne({ email })`
  when the token's `user` carries no email, which is modelled as `""`.
- Stored documents are assumed to pass the current schema (every handler
  requires `Valid()` of the database). The code also expects documents
  that do not: `blog.coverImage?.public_id` reads a cover image stored as
  an object. For such a document a later `save()` fails. createComment
  would then answer 400 after `Comment.create` has stored an orphan
  comment, and deleteComment would answer 400 with nothing deleted. These
  failure paths are not modelled.
- Activation.LooselyEqual: of JavaScript's string-to-number conversions,
  only the empty string and plain decimal digits are modelled. Whitespace,
  signs, exponents, hexadecimal and fractional forms compare as unequal.
- Activation.ActivationCode: the expression is computed over exact reals.
  Floating-point rounding near r = 1 is not modelled.
- Scalar request fields: only strings are modelled, not numbers or arrays
  sent in their place. The one exception is the activation code, which may
  also arrive as a number (`Activation.SuppliedCode`).
