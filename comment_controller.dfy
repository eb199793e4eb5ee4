/** The comment handlers of
    backend/src/api/v1/controllers/comment.controller.ts. Each cascade pushes
    onto or filters the parent blog's `comments`, and the populated blog is
    refreshed in the cache under `blog-<id>`, a key getSingleBlog never
    reads. */
module CommentController {
  import opened Common
  import opened RefLists
  import opened CommentModel
  import opened Store
  import opened Projection
  import opened Cache
  import opened Database

  /** createComment. An unknown blog gives 404. Content that fails
      validation makes `Comment.create` throw (400). Otherwise the comment
      is created with the blog, the content and the requesting user, its id
      pushed onto the blog's `comments`, the populated blog cached under
      `blog-<blogId>`, and only then the answer 201 sent. The entry
      getSingleBlog reads for that blog is left as it was. */
  method CreateComment(db: Db, me: Id, blogId: Id, content: Option<string>, newId: Id)
    returns (status: nat)
    requires db.Valid() && Fresh(db.Docs(), newId)
    modifies db
    ensures db.Valid()
    ensures blogId !in old(db.blogs) ==> status == 404 && db.OnlyResponded(404)
    ensures blogId in old(db.blogs) && !RequiredString(content) ==> status == 400 && db.OnlyResponded(400)
    ensures blogId in old(db.blogs) && RequiredString(content) ==>
              && status == 201
              && db.Docs() == AddComment(old(db.Docs()), blogId, newId, CommentModel.New(blogId, me, content))
              && db.cache == old(db.cache)[ChildRefreshKey(blogId) := BlogEntry(PopulateBlog(db.Docs(), blogId))]
              && db.log == old(db.log) + [CacheSet(ChildRefreshKey(blogId), Some(BlogTtl)), Responded(201)]
              && var before := PopulateBlog(old(db.Docs()), blogId).value;
                 PopulateBlog(db.Docs(), blogId)
                   == Some(before.(comments := before.comments
                                               + [CommentOf(db.users, db.comments, db.replies, newId)]))
    ensures SameEntry(old(db.cache), db.cache, BlogKey(blogId))
  {
    if blogId !in db.blogs {
      status := 404;
      db.Respond(status);
      return;
    }
    var comment := CommentModel.New(blogId, me, content);
    if !CommentModel.Valid(comment) {
      status := 400;
      db.Respond(status);
      return;
    }
    ghost var before := db.Docs();
    AddCommentKeepsValid(before, blogId, newId, comment);
    db.comments := db.comments[newId := comment];
    var blog := db.blogs[blogId];
    db.blogs := db.blogs[blogId := blog.(comments := Push(blog.comments, newId))];
    ViewAfterAddComment(before, blogId, newId, comment);
    db.SetCache(ChildRefreshKey(blogId), BlogEntry(PopulateBlog(db.Docs(), blogId)));
    status := 201;
    db.Respond(status);
  }

  /** getComment: read-only; the comment with 200, or 404 when there is
      none. Only the response is recorded. */
  method GetComment(db: Db, commentId: Id) returns (status: nat, comment: Option<Comment>)
    modifies db
    ensures commentId in old(db.comments) ==>
              status == 200 && comment == Some(old(db.comments)[commentId]) && db.OnlyResponded(200)
    ensures commentId !in old(db.comments) ==> status == 404 && comment == None && db.OnlyResponded(404)
  {
    if commentId !in db.comments {
      status, comment := 404, None;
    } else {
      status, comment := 200, Some(db.comments[commentId]);
    }
    db.Respond(status);
  }

  /** deleteComment. The comment is looked up first, then the blog; either
      missing gives 404 and changes nothing. Otherwise every occurrence of
      the id is filtered out of that blog's `comments` (the others keep
      their order), the comment document is deleted while its replies stay,
      the answer 200 is sent, and then the populated blog is cached under
      `blog-<blogId>`. */
  method DeleteComment(db: Db, blogId: Id, commentId: Id) returns (status: nat)
    requires db.Valid()
    modifies db
    ensures db.Valid()
    ensures commentId !in old(db.comments) ==> status == 404 && db.OnlyResponded(404)
    ensures commentId in old(db.comments) && blogId !in old(db.blogs) ==> status == 404 && db.OnlyResponded(404)
    ensures commentId in old(db.comments) && blogId in old(db.blogs) ==>
              && status == 200
              && db.Docs() == RemoveComment(old(db.Docs()), blogId, commentId)
              && db.cache == old(db.cache)[ChildRefreshKey(blogId) := BlogEntry(PopulateBlog(db.Docs(), blogId))]
              && db.log == old(db.log) + [Responded(200), CacheSet(ChildRefreshKey(blogId), Some(BlogTtl))]
              && var before := PopulateBlog(old(db.Docs()), blogId).value;
                 var after := PopulateBlog(db.Docs(), blogId).value;
                 && after == before.(comments := after.comments)
                 && CommentIds(after.comments) == RemoveAll(CommentIds(before.comments), commentId)
    ensures db.replies == old(db.replies)
    ensures SameEntry(old(db.cache), db.cache, BlogKey(blogId))
  {
    if commentId !in db.comments {
      status := 404;
      db.Respond(status);
      return;
    }
    if blogId !in db.blogs {
      status := 404;
      db.Respond(status);
      return;
    }
    ghost var before := db.Docs();
    RemoveCommentKeepsValid(before, blogId, commentId);
    var blog := db.blogs[blogId];
    db.blogs := db.blogs[blogId := blog.(comments := RemoveAll(blog.comments, commentId))];
    db.comments := db.comments - {commentId};
    ViewAfterRemoveComment(before, blogId, commentId);
    status := 200;
    db.Respond(status);
    db.SetCache(ChildRefreshKey(blogId), BlogEntry(PopulateBlog(db.Docs(), blogId)));
  }

  /** likeComment. An unknown comment gives 404. `likes` is a Number: when
      it is non-zero the guard lets `likes.push` run, which throws (400);
      when it is zero, as every comment is created, the guard
      short-circuits, the unchanged comment is saved, 200 is sent and the
      populated blog of the comment cached under `blog-<comment.blog>`. No
      like is ever recorded: the store never changes. */
  method LikeComment(db: Db, me: Id, commentId: Id) returns (status: nat)
    requires db.Valid()
    modifies db
    ensures db.Docs() == old(db.Docs())
    ensures commentId !in old(db.comments) ==> status == 404 && db.OnlyResponded(404)
    ensures commentId in old(db.comments) && LikeGuard(old(db.comments)[commentId].likes) ==>
              status == 400 && db.OnlyResponded(400)
    ensures commentId in old(db.comments) && !LikeGuard(old(db.comments)[commentId].likes) ==>
              var key := ChildRefreshKey(old(db.comments)[commentId].blog);
              && status == 200
              && db.cache == old(db.cache)[key := BlogEntry(PopulateBlog(db.Docs(), old(db.comments)[commentId].blog))]
              && db.log == old(db.log) + [Responded(200), CacheSet(key, Some(BlogTtl))]
  {
    if commentId !in db.comments {
      status := 404;
      db.Respond(status);
      return;
    }
    var comment := db.comments[commentId];
    if LikeGuard(comment.likes) {
      status := 400;
      db.Respond(status);
      return;
    }
    db.comments := db.comments[commentId := comment];
    status := 200;
    db.Respond(status);
    db.SetCache(ChildRefreshKey(comment.blog), BlogEntry(PopulateBlog(db.Docs(), comment.blog)));
  }
}
