/** The Comment schema of backend/src/api/v1/models/comment.model.ts. */
module CommentModel {
  import opened Common

  /** A stored comment. `likes` is a Number in the schema, not an array of
      user refs. */
  datatype Comment = Comment(
    blog: Id,
    user: Id,
    content: Option<string>,
    likes: int,
    replies: seq<Id>)

  /** The schema's validators: content is a required String (the required
      `blog` and `user` refs are always supplied). */
  predicate Valid(c: Comment) {
    RequiredString(c.content)
  }

  /** The document `Comment.create({blog, content, user})` builds. */
  function New(blog: Id, user: Id, content: Option<string>): (c: Comment)
    ensures c.likes == 0 && c.replies == []
    ensures c.blog == blog && c.user == user
    ensures Valid(c) <==> RequiredString(content)
  {
    Comment(blog, user, content, 0, [])
  }

  /** The guard `comment.likes && comment.likes.push(...)`: a non-zero number
      is truthy, and then `push` is not a function of it. */
  function LikeGuard(likes: int): bool {
    likes != 0
  }

  /** A comment with the schema default `likes: 0` short-circuits the guard,
      so no like is ever pushed onto it. */
  lemma NewCommentSkipsLike(blog: Id, user: Id, content: Option<string>)
    ensures !LikeGuard(New(blog, user, content).likes)
  {
  }
}
