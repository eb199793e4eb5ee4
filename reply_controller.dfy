/** The reply handlers of backend/src/api/v1/controllers/reply.controller.ts.
    Each cascade pushes onto or filters a comment's `replies`, or pushes
    onto a reply's `likes`, and the populated blog of the comment is
    refreshed under `blog-<comment.blog>` before the answer is sent. */
module ReplyController {
  import opened Common
  import opened RefLists
  import opened CommentModel
  import opened ReplyModel
  import opened Store
  import opened Projection
  import opened Cache
  import opened Database

  /** createReply. An unknown comment gives 404. Content that fails
      validation makes `Reply.create` throw (400). Otherwise the reply is
      created with the content, the requesting user and the comment
      back-reference, its id pushed onto the comment's `replies` (the
      comment's view gains exactly that reply's view at the end), the
      populated blog cached under `blog-<comment.blog>`, and then 201 sent. */
  method CreateReply(db: Db, me: Id, commentId: Id, content: Option<string>, newId: Id)
    returns (status: nat)
    requires db.Valid() && Fresh(db.Docs(), newId)
    modifies db
    ensures db.Valid()
    ensures commentId !in old(db.comments) ==> status == 404 && db.OnlyResponded(404)
    ensures commentId in old(db.comments) && !RequiredString(content) ==> status == 400 && db.OnlyResponded(400)
    ensures commentId in old(db.comments) && RequiredString(content) ==>
              var key := ChildRefreshKey(old(db.comments)[commentId].blog);
              var before := CommentOf(old(db.users), old(db.comments), old(db.replies), commentId);
              && status == 201
              && db.Docs() == AddReply(old(db.Docs()), commentId, newId, ReplyModel.New(commentId, me, content))
              && db.cache == old(db.cache)[key := BlogEntry(PopulateBlog(db.Docs(), old(db.comments)[commentId].blog))]
              && db.log == old(db.log) + [CacheSet(key, Some(BlogTtl)), Responded(201)]
              && CommentOf(db.users, db.comments, db.replies, commentId)
                   == before.(replies := before.replies + [ReplyOf(db.users, db.replies, newId)])
  {
    if commentId !in db.comments {
      status := 404;
      db.Respond(status);
      return;
    }
    var reply := ReplyModel.New(commentId, me, content);
    if !ReplyModel.Valid(reply) {
      status := 400;
      db.Respond(status);
      return;
    }
    ghost var before := db.Docs();
    AddReplyKeepsValid(before, commentId, newId, reply);
    db.replies := db.replies[newId := reply];
    var comment := db.comments[commentId];
    db.comments := db.comments[commentId := comment.(replies := Push(comment.replies, newId))];
    ViewAfterAddReply(before, commentId, newId, reply);
    db.SetCache(ChildRefreshKey(comment.blog), BlogEntry(PopulateBlog(db.Docs(), comment.blog)));
    status := 201;
    db.Respond(status);
  }

  /** deleteReply. The reply is looked up first, then the comment named in
      the route; either missing gives 404 and changes nothing. The reply's
      own `comment` field is not consulted: every occurrence of the id is
      filtered out of the route's comment, the reply deleted, the populated
      blog of that comment cached under `blog-<comment.blog>`, and then 200
      sent. */
  method DeleteReply(db: Db, commentId: Id, replyId: Id) returns (status: nat)
    requires db.Valid()
    modifies db
    ensures db.Valid()
    ensures replyId !in old(db.replies) ==> status == 404 && db.OnlyResponded(404)
    ensures replyId in old(db.replies) && commentId !in old(db.comments) ==> status == 404 && db.OnlyResponded(404)
    ensures replyId in old(db.replies) && commentId in old(db.comments) ==>
              var key := ChildRefreshKey(old(db.comments)[commentId].blog);
              && status == 200
              && db.Docs() == RemoveReply(old(db.Docs()), commentId, replyId)
              && db.cache == old(db.cache)[key := BlogEntry(PopulateBlog(db.Docs(), old(db.comments)[commentId].blog))]
              && db.log == old(db.log) + [CacheSet(key, Some(BlogTtl)), Responded(200)]
  {
    if replyId !in db.replies {
      status := 404;
      db.Respond(status);
      return;
    }
    if commentId !in db.comments {
      status := 404;
      db.Respond(status);
      return;
    }
    var comment := db.comments[commentId];
    RemoveReplyKeepsValid(db.Docs(), commentId, replyId);
    db.comments := db.comments[commentId := comment.(replies := RemoveAll(comment.replies, replyId))];
    db.replies := db.replies - {replyId};
    db.SetCache(ChildRefreshKey(comment.blog), BlogEntry(PopulateBlog(db.Docs(), comment.blog)));
    status := 200;
    db.Respond(status);
  }

  /** likeReply. The comment named in the route is looked up first, then
      the reply; either missing gives 404 and changes nothing. The reply
      need not belong to that comment. The requesting user is pushed onto
      the reply's `likes` with no duplicate check, the populated blog of the
      route's comment cached under `blog-<comment.blog>`, and then 200
      sent. */
  method LikeReply(db: Db, me: Id, commentId: Id, replyId: Id) returns (status: nat)
    requires db.Valid()
    modifies db
    ensures db.Valid()
    ensures commentId !in old(db.comments) ==> status == 404 && db.OnlyResponded(404)
    ensures commentId in old(db.comments) && replyId !in old(db.replies) ==> status == 404 && db.OnlyResponded(404)
    ensures commentId in old(db.comments) && replyId in old(db.replies) ==>
              var key := ChildRefreshKey(old(db.comments)[commentId].blog);
              && status == 200
              && db.Docs() == AddReplyLike(old(db.Docs()), replyId, me)
              && db.cache == old(db.cache)[key := BlogEntry(PopulateBlog(db.Docs(), old(db.comments)[commentId].blog))]
              && db.log == old(db.log) + [CacheSet(key, Some(BlogTtl)), Responded(200)]
              && Count(db.replies[replyId].likes, me) == Count(old(db.replies)[replyId].likes, me) + 1
  {
    if commentId !in db.comments {
      status := 404;
      db.Respond(status);
      return;
    }
    if replyId !in db.replies {
      status := 404;
      db.Respond(status);
      return;
    }
    var comment := db.comments[commentId];
    var reply := db.replies[replyId];
    PushCount(reply.likes, me, me);
    AddReplyLikeKeepsValid(db.Docs(), replyId, me);
    db.replies := db.replies[replyId := reply.(likes := Push(reply.likes, me))];
    db.SetCache(ChildRefreshKey(comment.blog), BlogEntry(PopulateBlog(db.Docs(), comment.blog)));
    status := 200;
    db.Respond(status);
  }
}
