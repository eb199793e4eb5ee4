/** The document store: the four MongoDB collections as maps from id to
    document, the store-level effect of every cascade the comment and reply
    handlers perform, and the email-uniqueness property the account handlers
    check by hand (the schema does not enforce it). */
module Store {
  import opened Common
  import opened RefLists
  import opened BlogModel
  import opened CommentModel
  import opened ReplyModel
  import opened UserModel

  datatype Documents = Documents(
    users: map<Id, User>,
    blogs: map<Id, Blog>,
    comments: map<Id, Comment>,
    replies: map<Id, Reply>)

  /** Every stored document passed its schema's validators. */
  predicate AllValid(d: Documents) {
    && (forall id :: id in d.users ==> UserModel.Valid(d.users[id]))
    && (forall id :: id in d.blogs ==> BlogModel.Valid(d.blogs[id]))
    && (forall id :: id in d.comments ==> CommentModel.Valid(d.comments[id]))
    && (forall id :: id in d.replies ==> ReplyModel.Valid(d.replies[id]))
  }

  /** `User.findOne({email})` finds a user. */
  predicate EmailTaken(users: map<Id, User>, email: string) {
    exists id :: id in users && users[id].email == Some(email)
  }

  /** No two users share an email. */
  predicate EmailsUnique(users: map<Id, User>) {
    forall a, b :: a in users && b in users && users[a].email == users[b].email ==> a == b
  }

  /** A newly generated ObjectId: no document has it and no array of
      references mentions it. */
  predicate Fresh(d: Documents, id: Id) {
    && id !in d.users && id !in d.blogs && id !in d.comments && id !in d.replies
    && (forall b :: b in d.blogs ==> id !in d.blogs[b].comments)
    && (forall c :: c in d.comments ==> id !in d.comments[c].replies)
  }

  /** createComment: the new comment document, and its id pushed onto the
      blog's `comments`. */
  function AddComment(d: Documents, blogId: Id, commentId: Id, c: Comment): (r: Documents)
    requires blogId in d.blogs
    ensures r.users == d.users && r.replies == d.replies
    ensures r.comments == d.comments[commentId := c]
    ensures r.blogs - {blogId} == d.blogs - {blogId} && blogId in r.blogs
    ensures r.blogs[blogId].(comments := []) == d.blogs[blogId].(comments := [])
    ensures r.blogs[blogId].comments == d.blogs[blogId].comments + [commentId]
  {
    var b := d.blogs[blogId];
    d.(comments := d.comments[commentId := c],
       blogs := d.blogs[blogId := b.(comments := Push(b.comments, commentId))])
  }

  /** deleteComment: the id filtered out of the blog's `comments` and the
      comment document deleted. Its replies stay in the store. */
  function RemoveComment(d: Documents, blogId: Id, commentId: Id): (r: Documents)
    requires blogId in d.blogs
    ensures r.users == d.users && r.replies == d.replies
    ensures r.comments == d.comments - {commentId}
    ensures r.blogs - {blogId} == d.blogs - {blogId} && blogId in r.blogs
    ensures r.blogs[blogId].(comments := []) == d.blogs[blogId].(comments := [])
    ensures commentId !in r.blogs[blogId].comments
    ensures |r.blogs[blogId].comments| <= |d.blogs[blogId].comments|
  {
    var b := d.blogs[blogId];
    d.(blogs := d.blogs[blogId := b.(comments := RemoveAll(b.comments, commentId))],
       comments := d.comments - {commentId})
  }

  /** createReply: the new reply document, and its id pushed onto the
      comment's `replies`. */
  function AddReply(d: Documents, commentId: Id, replyId: Id, reply: Reply): (r: Documents)
    requires commentId in d.comments
    ensures r.users == d.users && r.blogs == d.blogs
    ensures r.replies == d.replies[replyId := reply]
    ensures r.comments - {commentId} == d.comments - {commentId} && commentId in r.comments
    ensures r.comments[commentId].(replies := []) == d.comments[commentId].(replies := [])
    ensures r.comments[commentId].replies == d.comments[commentId].replies + [replyId]
  {
    var c := d.comments[commentId];
    d.(replies := d.replies[replyId := reply],
       comments := d.comments[commentId := c.(replies := Push(c.replies, replyId))])
  }

  /** deleteReply: the id filtered out of the given comment's `replies` and
      the reply document deleted. */
  function RemoveReply(d: Documents, commentId: Id, replyId: Id): (r: Documents)
    requires commentId in d.comments
    ensures r.users == d.users && r.blogs == d.blogs
    ensures r.replies == d.replies - {replyId}
    ensures r.comments - {commentId} == d.comments - {commentId} && commentId in r.comments
    ensures r.comments[commentId].(replies := []) == d.comments[commentId].(replies := [])
    ensures replyId !in r.comments[commentId].replies
    ensures |r.comments[commentId].replies| <= |d.comments[commentId].replies|
  {
    var c := d.comments[commentId];
    d.(comments := d.comments[commentId := c.(replies := RemoveAll(c.replies, replyId))],
       replies := d.replies - {replyId})
  }

  /** likeReply: the user pushed onto the reply's `likes`. */
  function AddReplyLike(d: Documents, replyId: Id, userId: Id): (r: Documents)
    requires replyId in d.replies
    ensures r.users == d.users && r.blogs == d.blogs && r.comments == d.comments
    ensures r.replies - {replyId} == d.replies - {replyId} && replyId in r.replies
    ensures r.replies[replyId].(likes := []) == d.replies[replyId].(likes := [])
    ensures r.replies[replyId].likes == d.replies[replyId].likes + [userId]
  {
    var r := d.replies[replyId];
    d.(replies := d.replies[replyId := r.(likes := Push(r.likes, userId))])
  }

  /** createComment's cascade keeps the store valid when the new comment is. */
  lemma AddCommentKeepsValid(d: Documents, blogId: Id, commentId: Id, c: Comment)
    requires AllValid(d) && blogId in d.blogs && CommentModel.Valid(c)
    ensures AllValid(AddComment(d, blogId, commentId, c))
  {
  }

  /** deleteComment's cascade keeps the store valid: `comments` is not validated. */
  lemma RemoveCommentKeepsValid(d: Documents, blogId: Id, commentId: Id)
    requires AllValid(d) && blogId in d.blogs
    ensures AllValid(RemoveComment(d, blogId, commentId))
  {
  }

  /** createReply's cascade keeps the store valid when the new reply is. */
  lemma AddReplyKeepsValid(d: Documents, commentId: Id, replyId: Id, reply: Reply)
    requires AllValid(d) && commentId in d.comments && ReplyModel.Valid(reply)
    ensures AllValid(AddReply(d, commentId, replyId, reply))
  {
  }

  /** deleteReply's cascade keeps the store valid: `replies` is not validated. */
  lemma RemoveReplyKeepsValid(d: Documents, commentId: Id, replyId: Id)
    requires AllValid(d) && commentId in d.comments
    ensures AllValid(RemoveReply(d, commentId, replyId))
  {
  }

  /** likeReply's cascade keeps the store valid: `likes` is not validated. */
  lemma AddReplyLikeKeepsValid(d: Documents, replyId: Id, userId: Id)
    requires AllValid(d) && replyId in d.replies
    ensures AllValid(AddReplyLike(d, replyId, userId))
  {
  }

  /** Every stored comment still has the schema default `likes: 0`. No
      handler ever writes a comment's `likes`, so this holds of every store
      the handlers build from one where it held. */
  predicate CommentLikesZero(d: Documents) {
    forall id :: id in d.comments ==> d.comments[id].likes == 0
  }

  /** On a store where every comment has `likes: 0`, the guard of
      likeComment is false for every stored comment: it never answers 400
      and never records a like. */
  lemma StoredCommentSkipsLike(d: Documents, commentId: Id)
    requires CommentLikesZero(d) && commentId in d.comments
    ensures !LikeGuard(d.comments[commentId].likes)
  {
  }

  /** createComment stores a `Comment.create` document, whose likes is 0. */
  lemma AddCommentKeepsLikesZero(d: Documents, blogId: Id, commentId: Id, blog: Id, user: Id, content: Option<string>)
    requires CommentLikesZero(d) && blogId in d.blogs
    ensures CommentLikesZero(AddComment(d, blogId, commentId, CommentModel.New(blog, user, content)))
  {
  }

  /** deleteComment only removes a comment. */
  lemma RemoveCommentKeepsLikesZero(d: Documents, blogId: Id, commentId: Id)
    requires CommentLikesZero(d) && blogId in d.blogs
    ensures CommentLikesZero(RemoveComment(d, blogId, commentId))
  {
  }

  /** createReply changes only the parent comment's `replies`. */
  lemma AddReplyKeepsLikesZero(d: Documents, commentId: Id, replyId: Id, reply: Reply)
    requires CommentLikesZero(d) && commentId in d.comments
    ensures CommentLikesZero(AddReply(d, commentId, replyId, reply))
  {
  }

  /** deleteReply changes only the parent comment's `replies`. */
  lemma RemoveReplyKeepsLikesZero(d: Documents, commentId: Id, replyId: Id)
    requires CommentLikesZero(d) && commentId in d.comments
    ensures CommentLikesZero(RemoveReply(d, commentId, replyId))
  {
  }

  /** likeReply touches no comment. */
  lemma AddReplyLikeKeepsLikesZero(d: Documents, replyId: Id, userId: Id)
    requires CommentLikesZero(d) && replyId in d.replies
    ensures CommentLikesZero(AddReplyLike(d, replyId, userId))
  {
  }

  /** Creating a comment adds its id to the blog's `comments` exactly once,
      at the end, and every other id keeps its count. */
  lemma AddCommentAppendsOnce(d: Documents, blogId: Id, commentId: Id, c: Comment, y: Id)
    requires blogId in d.blogs
    requires commentId !in d.blogs[blogId].comments
    ensures var after := AddComment(d, blogId, commentId, c).blogs[blogId].comments;
            && Count(after, commentId) == 1
            && after == d.blogs[blogId].comments + [commentId]
            && (y != commentId ==> Count(after, y) == Count(d.blogs[blogId].comments, y))
  {
    PushFreshOnce(d.blogs[blogId].comments, commentId);
    PushCount(d.blogs[blogId].comments, commentId, y);
  }

  /** Deleting a comment leaves its id nowhere in the blog's `comments`,
      keeps every other id as often as before, deletes the document, and
      leaves every reply document (including its own replies) in place. */
  lemma RemoveCommentDropsAll(d: Documents, blogId: Id, commentId: Id, y: Id)
    requires blogId in d.blogs
    ensures var after := RemoveComment(d, blogId, commentId);
            && Count(after.blogs[blogId].comments, commentId) == 0
            && (y != commentId ==> Count(after.blogs[blogId].comments, y) == Count(d.blogs[blogId].comments, y))
            && commentId !in after.comments
            && after.replies == d.replies
  {
    RemoveAllCount(d.blogs[blogId].comments, commentId, commentId);
    RemoveAllCount(d.blogs[blogId].comments, commentId, y);
  }

  /** Deleting a freshly created comment restores the store exactly. */
  lemma AddThenRemoveComment(d: Documents, blogId: Id, commentId: Id, c: Comment)
    requires blogId in d.blogs
    requires commentId !in d.comments && commentId !in d.blogs[blogId].comments
    ensures RemoveComment(AddComment(d, blogId, commentId, c), blogId, commentId) == d
  {
    var b := d.blogs[blogId];
    PushThenRemoveAll(b.comments, commentId);
    var after := RemoveComment(AddComment(d, blogId, commentId, c), blogId, commentId);
    assert after.blogs == d.blogs[blogId := b];
    assert after.comments == d.comments;
  }

  /** Creating a reply adds its id to the comment's `replies` exactly once,
      at the end, and every other id keeps its count. */
  lemma AddReplyAppendsOnce(d: Documents, commentId: Id, replyId: Id, r: Reply, y: Id)
    requires commentId in d.comments
    requires replyId !in d.comments[commentId].replies
    ensures var after := AddReply(d, commentId, replyId, r).comments[commentId].replies;
            && Count(after, replyId) == 1
            && after == d.comments[commentId].replies + [replyId]
            && (y != replyId ==> Count(after, y) == Count(d.comments[commentId].replies, y))
  {
    PushFreshOnce(d.comments[commentId].replies, replyId);
    PushCount(d.comments[commentId].replies, replyId, y);
  }

  /** Deleting a reply leaves its id nowhere in the given comment's
      `replies`, keeps every other id as often as before and deletes the
      document. */
  lemma RemoveReplyDropsAll(d: Documents, commentId: Id, replyId: Id, y: Id)
    requires commentId in d.comments
    ensures var after := RemoveReply(d, commentId, replyId);
            && Count(after.comments[commentId].replies, replyId) == 0
            && (y != replyId ==> Count(after.comments[commentId].replies, y) == Count(d.comments[commentId].replies, y))
            && replyId !in after.replies
  {
    RemoveAllCount(d.comments[commentId].replies, replyId, replyId);
    RemoveAllCount(d.comments[commentId].replies, replyId, y);
  }

  /** Deleting a freshly created reply restores the store exactly. */
  lemma AddThenRemoveReply(d: Documents, commentId: Id, replyId: Id, r: Reply)
    requires commentId in d.comments
    requires replyId !in d.replies && replyId !in d.comments[commentId].replies
    ensures RemoveReply(AddReply(d, commentId, replyId, r), commentId, replyId) == d
  {
    var c := d.comments[commentId];
    PushThenRemoveAll(c.replies, replyId);
    var after := RemoveReply(AddReply(d, commentId, replyId, r), commentId, replyId);
    assert after.comments == d.comments[commentId := c];
    assert after.replies == d.replies;
  }

  /** Likes are pushed with no duplicate check: the same user liking twice
      leaves two more entries. */
  lemma ReplyLikedTwice(d: Documents, replyId: Id, userId: Id)
    requires replyId in d.replies
    ensures var twice := AddReplyLike(AddReplyLike(d, replyId, userId), replyId, userId);
            Count(twice.replies[replyId].likes, userId) == Count(d.replies[replyId].likes, userId) + 2
  {
    var once := AddReplyLike(d, replyId, userId);
    PushCount(d.replies[replyId].likes, userId, userId);
    PushCount(once.replies[replyId].likes, userId, userId);
  }

  /** Writing user `u` at `id` keeps emails unique when no other user holds
      its email. */
  lemma WriteKeepsEmailsUnique(users: map<Id, User>, id: Id, u: User)
    requires EmailsUnique(users)
    requires forall other :: other in users && other != id ==> users[other].email != u.email
    ensures EmailsUnique(users[id := u])
  {
  }

  /** A user whose email `findOne` did not find can be written anywhere
      without breaking uniqueness. */
  lemma UntakenEmailKeepsUnique(users: map<Id, User>, id: Id, u: User, email: string)
    requires EmailsUnique(users)
    requires u.email == Some(email) && !EmailTaken(users, email)
    ensures EmailsUnique(users[id := u])
  {
    WriteKeepsEmailsUnique(users, id, u);
  }
}
