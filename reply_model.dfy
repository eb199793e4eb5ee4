/** The Reply schema of backend/src/api/v1/models/reply.model.ts. */
module ReplyModel {
  import opened Common

  /** A stored reply with its `comment` back-reference. */
  datatype Reply = Reply(
    comment: Id,
    user: Id,
    likes: seq<Id>,
    content: Option<string>)

  /** The schema's validators: content is a required String (the required
      `comment` and `user` refs are always supplied). */
  predicate Valid(r: Reply) {
    RequiredString(r.content)
  }

  /** The document `Reply.create({content, user, comment})` builds. */
  function New(comment: Id, user: Id, content: Option<string>): (r: Reply)
    ensures r.likes == []
    ensures r.comment == comment && r.user == user
    ensures Valid(r) <==> RequiredString(content)
  {
    Reply(comment, user, [], content)
  }
}
