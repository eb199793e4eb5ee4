/** `populateBlog` of backend/src/api/v1/controllers/blog.controller.ts as a
    pure projection from the store to the denormalised view the handlers
    cache: the blog with its author, likes and comments resolved, each
    comment with its user, likes and replies, and each reply with its user
    and likes; every user is selected as `name picture`.

    Mongoose's populate resolves a single reference to null when its
    document is missing, and drops an array element whose document is
    missing. The comment schema's `likes` is a Number, so populating it
    leaves the number as it is. */
module Projection {
  import opened Common
  import opened RefLists
  import opened BlogModel
  import opened CommentModel
  import opened ReplyModel
  import opened UserModel
  import opened Store

  /** A user as `select: "name picture"` yields it (with its `_id`). */
  datatype UserView = UserView(id: Id, name: Option<string>, picture: Option<FieldValue>)

  datatype ReplyView = ReplyView(
    id: Id,
    comment: Id,
    user: Option<UserView>,
    likes: seq<UserView>,
    content: Option<string>)

  datatype CommentView = CommentView(
    id: Id,
    blog: Id,
    user: Option<UserView>,
    content: Option<string>,
    likes: int,
    replies: seq<ReplyView>)

  datatype BlogView = BlogView(
    id: Id,
    title: Option<string>,
    author: Option<UserView>,
    category: Option<string>,
    tags: seq<string>,
    coverImage: Option<FieldValue>,
    content: Option<string>,
    views: int,
    likes: seq<UserView>,
    comments: seq<CommentView>)

  function UserOf(users: map<Id, User>, id: Id): UserView
    requires id in users
  {
    UserView(id, users[id].name, users[id].picture)
  }

  /** A populated single user reference. */
  function UserRef(users: map<Id, User>, id: Id): Option<UserView> {
    if id in users then Some(UserOf(users, id)) else None
  }

  /** A populated array of user references. */
  function UserRefs(users: map<Id, User>, ids: seq<Id>): seq<UserView> {
    if ids == [] then []
    else (if ids[0] in users then [UserOf(users, ids[0])] else []) + UserRefs(users, ids[1..])
  }

  function ReplyOf(users: map<Id, User>, replies: map<Id, Reply>, id: Id): ReplyView
    requires id in replies
  {
    var r := replies[id];
    ReplyView(id, r.comment, UserRef(users, r.user), UserRefs(users, r.likes), r.content)
  }

  /** A populated array of reply references. */
  function ReplyRefs(users: map<Id, User>, replies: map<Id, Reply>, ids: seq<Id>): seq<ReplyView> {
    if ids == [] then []
    else (if ids[0] in replies then [ReplyOf(users, replies, ids[0])] else [])
         + ReplyRefs(users, replies, ids[1..])
  }

  function CommentOf(users: map<Id, User>, comments: map<Id, Comment>, replies: map<Id, Reply>,
                     id: Id): CommentView
    requires id in comments
  {
    var c := comments[id];
    CommentView(id, c.blog, UserRef(users, c.user), c.content, c.likes,
                ReplyRefs(users, replies, c.replies))
  }

  /** A populated array of comment references. */
  function CommentRefs(users: map<Id, User>, comments: map<Id, Comment>, replies: map<Id, Reply>,
                       ids: seq<Id>): seq<CommentView>
  {
    if ids == [] then []
    else (if ids[0] in comments then [CommentOf(users, comments, replies, ids[0])] else [])
         + CommentRefs(users, comments, replies, ids[1..])
  }

  /** `populateBlog(id)`: null when no blog has that id. */
  function PopulateBlog(d: Documents, id: Id): (v: Option<BlogView>)
    ensures v.Some? <==> id in d.blogs
  {
    if id !in d.blogs then None
    else
      var b := d.blogs[id];
      Some(BlogView(id, b.title, UserRef(d.users, b.author), b.category, b.tags, b.coverImage,
                    b.content, b.views, UserRefs(d.users, b.likes),
                    CommentRefs(d.users, d.comments, d.replies, b.comments)))
  }

  function UserIds(vs: seq<UserView>): seq<Id> {
    if vs == [] then [] else [vs[0].id] + UserIds(vs[1..])
  }

  function ReplyIds(vs: seq<ReplyView>): seq<Id> {
    if vs == [] then [] else [vs[0].id] + ReplyIds(vs[1..])
  }

  function CommentIds(vs: seq<CommentView>): seq<Id> {
    if vs == [] then [] else [vs[0].id] + CommentIds(vs[1..])
  }

  /** A populated user array lists, in order, exactly the referenced users
      that exist, each projected to its name and picture. */
  lemma {:induction false} UserRefsResolve(users: map<Id, User>, ids: seq<Id>)
    ensures UserIds(UserRefs(users, ids)) == Present(ids, users.Keys)
    ensures forall v :: v in UserRefs(users, ids) ==> v.id in users && v == UserOf(users, v.id)
  {
    if ids != [] {
      UserRefsResolve(users, ids[1..]);
      var head := if ids[0] in users then [UserOf(users, ids[0])] else [];
      UserIdsAppend(head, UserRefs(users, ids[1..]));
    }
  }

  lemma {:induction false} UserIdsAppend(a: seq<UserView>, b: seq<UserView>)
    ensures UserIds(a + b) == UserIds(a) + UserIds(b)
  {
    if a == [] {
      assert a + b == b;
    } else {
      assert (a + b)[1..] == a[1..] + b;
      UserIdsAppend(a[1..], b);
    }
  }

  lemma {:induction false} ReplyIdsAppend(a: seq<ReplyView>, b: seq<ReplyView>)
    ensures ReplyIds(a + b) == ReplyIds(a) + ReplyIds(b)
  {
    if a == [] {
      assert a + b == b;
    } else {
      assert (a + b)[1..] == a[1..] + b;
      ReplyIdsAppend(a[1..], b);
    }
  }

  lemma {:induction false} CommentIdsAppend(a: seq<CommentView>, b: seq<CommentView>)
    ensures CommentIds(a + b) == CommentIds(a) + CommentIds(b)
  {
    if a == [] {
      assert a + b == b;
    } else {
      assert (a + b)[1..] == a[1..] + b;
      CommentIdsAppend(a[1..], b);
    }
  }

  /** A populated reply array lists, in order, exactly the referenced replies
      that exist, each with its user and likes resolved. */
  lemma {:induction false} ReplyRefsResolve(users: map<Id, User>, replies: map<Id, Reply>, ids: seq<Id>)
    ensures ReplyIds(ReplyRefs(users, replies, ids)) == Present(ids, replies.Keys)
    ensures forall v :: v in ReplyRefs(users, replies, ids) ==>
              v.id in replies && v == ReplyOf(users, replies, v.id)
  {
    if ids != [] {
      ReplyRefsResolve(users, replies, ids[1..]);
      var head := if ids[0] in replies then [ReplyOf(users, replies, ids[0])] else [];
      ReplyIdsAppend(head, ReplyRefs(users, replies, ids[1..]));
    }
  }

  /** A populated comment array lists, in order, exactly the referenced
      comments that exist, each with its user and replies resolved. */
  lemma {:induction false} CommentRefsResolve(users: map<Id, User>, comments: map<Id, Comment>,
                                              replies: map<Id, Reply>, ids: seq<Id>)
    ensures CommentIds(CommentRefs(users, comments, replies, ids)) == Present(ids, comments.Keys)
    ensures forall v :: v in CommentRefs(users, comments, replies, ids) ==>
              v.id in comments && v == CommentOf(users, comments, replies, v.id)
  {
    if ids != [] {
      CommentRefsResolve(users, comments, replies, ids[1..]);
      var head := if ids[0] in comments then [CommentOf(users, comments, replies, ids[0])] else [];
      CommentIdsAppend(head, CommentRefs(users, comments, replies, ids[1..]));
    }
  }

  /** What `populateBlog` yields for a stored blog: its own fields, the
      author (null when missing), the existing likers and comments in the
      blog's order, every comment with its user and existing replies, every
      reply with its user and existing likers, and every user projected to
      name and picture. */
  lemma PopulateBlogResolves(d: Documents, id: Id)
    requires id in d.blogs
    ensures var b := d.blogs[id];
            var v := PopulateBlog(d, id).value;
            && v.id == id && v.title == b.title && v.category == b.category && v.tags == b.tags
            && v.coverImage == b.coverImage && v.content == b.content && v.views == b.views
            && v.author == UserRef(d.users, b.author)
            && UserIds(v.likes) == Present(b.likes, d.users.Keys)
            && (forall u :: u in v.likes ==> u.id in d.users && u == UserOf(d.users, u.id))
            && CommentIds(v.comments) == Present(b.comments, d.comments.Keys)
            && (forall c :: c in v.comments ==>
                  && c.id in d.comments
                  && c.blog == d.comments[c.id].blog && c.content == d.comments[c.id].content
                  && c.user == UserRef(d.users, d.comments[c.id].user)
                  && c.likes == d.comments[c.id].likes
                  && ReplyIds(c.replies) == Present(d.comments[c.id].replies, d.replies.Keys)
                  && (forall r :: r in c.replies ==>
                        && r.id in d.replies
                        && r.comment == d.replies[r.id].comment && r.content == d.replies[r.id].content
                        && r.user == UserRef(d.users, d.replies[r.id].user)
                        && UserIds(r.likes) == Present(d.replies[r.id].likes, d.users.Keys)
                        && (forall u :: u in r.likes ==> u.id in d.users && u == UserOf(d.users, u.id))))
  {
    var b := d.blogs[id];
    UserRefsResolve(d.users, b.likes);
    CommentRefsResolve(d.users, d.comments, d.replies, b.comments);
    forall c | c in PopulateBlog(d, id).value.comments
      ensures ReplyIds(c.replies) == Present(d.comments[c.id].replies, d.replies.Keys)
      ensures forall r :: r in c.replies ==>
                && r.id in d.replies
                && r.comment == d.replies[r.id].comment && r.content == d.replies[r.id].content
                && r.user == UserRef(d.users, d.replies[r.id].user)
                && UserIds(r.likes) == Present(d.replies[r.id].likes, d.users.Keys)
                && (forall u :: u in r.likes ==> u.id in d.users && u == UserOf(d.users, u.id))
    {
      ReplyRefsResolve(d.users, d.replies, d.comments[c.id].replies);
      forall r | r in c.replies
        ensures UserIds(r.likes) == Present(d.replies[r.id].likes, d.users.Keys)
        ensures forall u :: u in r.likes ==> u.id in d.users && u == UserOf(d.users, u.id)
      {
        UserRefsResolve(d.users, d.replies[r.id].likes);
      }
    }
  }

  lemma {:induction false} CommentRefsAppend(users: map<Id, User>, comments: map<Id, Comment>,
                                             replies: map<Id, Reply>, a: seq<Id>, b: seq<Id>)
    ensures CommentRefs(users, comments, replies, a + b)
            == CommentRefs(users, comments, replies, a) + CommentRefs(users, comments, replies, b)
  {
    if a == [] {
      assert a + b == b;
    } else {
      assert (a + b)[1..] == a[1..] + b;
      CommentRefsAppend(users, comments, replies, a[1..], b);
    }
  }

  lemma {:induction false} ReplyRefsAppend(users: map<Id, User>, replies: map<Id, Reply>,
                                           a: seq<Id>, b: seq<Id>)
    ensures ReplyRefs(users, replies, a + b) == ReplyRefs(users, replies, a) + ReplyRefs(users, replies, b)
  {
    if a == [] {
      assert a + b == b;
    } else {
      assert (a + b)[1..] == a[1..] + b;
      ReplyRefsAppend(users, replies, a[1..], b);
    }
  }

  /** Comment views depend only on the comment documents the array refers to. */
  lemma {:induction false} CommentRefsFrame(users: map<Id, User>, c1: map<Id, Comment>, c2: map<Id, Comment>,
                                            replies: map<Id, Reply>, ids: seq<Id>)
    requires forall x :: x in ids ==> (x in c1 <==> x in c2) && (x in c1 ==> c1[x] == c2[x])
    ensures CommentRefs(users, c1, replies, ids) == CommentRefs(users, c2, replies, ids)
  {
    if ids != [] {
      CommentRefsFrame(users, c1, c2, replies, ids[1..]);
    }
  }

  /** Reply views depend only on the reply documents the array refers to. */
  lemma {:induction false} ReplyRefsFrame(users: map<Id, User>, r1: map<Id, Reply>, r2: map<Id, Reply>,
                                          ids: seq<Id>)
    requires forall x :: x in ids ==> (x in r1 <==> x in r2) && (x in r1 ==> r1[x] == r2[x])
    ensures ReplyRefs(users, r1, ids) == ReplyRefs(users, r2, ids)
  {
    if ids != [] {
      ReplyRefsFrame(users, r1, r2, ids[1..]);
    }
  }

  /** After createComment's cascade, the populated blog is the one before
      with the new comment's view appended, and nothing else changed. */
  lemma ViewAfterAddComment(d: Documents, blogId: Id, commentId: Id, c: Comment)
    requires blogId in d.blogs
    requires commentId !in d.blogs[blogId].comments
    ensures var after := AddComment(d, blogId, commentId, c);
            var before := PopulateBlog(d, blogId).value;
            PopulateBlog(after, blogId)
              == Some(before.(comments := before.comments
                                          + [CommentOf(d.users, after.comments, d.replies, commentId)]))
  {
    var after := AddComment(d, blogId, commentId, c);
    var ids := d.blogs[blogId].comments;
    assert after.blogs[blogId].comments == ids + [commentId];
    CommentRefsAppend(d.users, after.comments, d.replies, ids, [commentId]);
    CommentRefsFrame(d.users, d.comments, after.comments, d.replies, ids);
    assert [commentId][1..] == [];
    assert CommentRefs(d.users, after.comments, d.replies, [commentId])
        == [CommentOf(d.users, after.comments, d.replies, commentId)];
  }

  /** After deleteComment's cascade, the populated blog lists the same
      comments in the same order without the deleted one, each remaining
      comment's view unchanged, and nothing else changed. */
  lemma ViewAfterRemoveComment(d: Documents, blogId: Id, commentId: Id)
    requires blogId in d.blogs
    ensures var after := RemoveComment(d, blogId, commentId);
            var before := PopulateBlog(d, blogId).value;
            var kept := CommentRefs(d.users, d.comments, d.replies, RemoveAll(d.blogs[blogId].comments, commentId));
            && PopulateBlog(after, blogId) == Some(before.(comments := kept))
            && CommentIds(kept) == RemoveAll(CommentIds(before.comments), commentId)
  {
    var after := RemoveComment(d, blogId, commentId);
    var ids := RemoveAll(d.blogs[blogId].comments, commentId);
    CommentRefsFrame(d.users, d.comments, after.comments, d.replies, ids);
    CommentRefsResolve(d.users, after.comments, d.replies, ids);
    CommentRefsResolve(d.users, d.comments, d.replies, d.blogs[blogId].comments);
    PresentRemoveAll(d.blogs[blogId].comments, d.comments.Keys, commentId);
    assert after.comments.Keys == d.comments.Keys - {commentId};
  }

  /** After createReply's cascade, the parent comment's view has the new
      reply's view appended to its replies. */
  lemma ViewAfterAddReply(d: Documents, commentId: Id, replyId: Id, r: Reply)
    requires commentId in d.comments
    requires replyId !in d.comments[commentId].replies
    ensures var after := AddReply(d, commentId, replyId, r);
            var before := CommentOf(d.users, d.comments, d.replies, commentId);
            CommentOf(after.users, after.comments, after.replies, commentId)
              == before.(replies := before.replies + [ReplyOf(d.users, after.replies, replyId)])
  {
    var after := AddReply(d, commentId, replyId, r);
    var ids := d.comments[commentId].replies;
    ReplyRefsAppend(d.users, after.replies, ids, [replyId]);
    ReplyRefsFrame(d.users, d.replies, after.replies, ids);
    assert [replyId][1..] == [];
  }
}
