/** Sequences of requests run against a small database, showing what the
    handlers do together: the refresh written by createComment is not what
    getSingleBlog serves, a like on a comment is never recorded, a
    registration activates with the mailed code while a second activation
    for the same email fails, a deleted account still authenticates, and a
    `null` blog cached at a user's id takes that user's place, while a user
    cached first is served as the blog, password hash included. */
module Scenarios {
  import opened Common
  import opened RefLists
  import opened BlogModel
  import opened CommentModel
  import opened ReplyModel
  import opened UserModel
  import opened Store
  import opened Projection
  import opened Cache
  import opened Activation
  import opened Database
  import opened BlogController
  import opened CommentController
  import opened ReplyController
  import opened AuthController
  import opened UserController
  import opened AuthMiddleware

  const Ann: User := User(Some("ann"), Some("ann@mail"), Some("secret"), DefaultRole, None, None)
  const Post: Blog := Blog(Some("title"), "u1", Some("news"), [], Some(Text("cover")), Some("body"), 0, [], [])

  /** One user `u1` and, when asked, one blog `b1` by that user. */
  method Fixture(withBlog: bool) returns (db: Db)
    ensures fresh(db) && db.Valid()
    ensures db.users == map["u1" := Ann] && db.comments == map[] && db.replies == map[]
    ensures db.blogs == if withBlog then map["b1" := Post] else map[]
    ensures db.cache == map[] && db.log == []
  {
    db := new Db(Documents(map["u1" := Ann], if withBlog then map["b1" := Post] else map[], map[], map[]));
  }

  /** getSingleBlog, createComment, getSingleBlog: both reads serve the
      blog with no comments, although the comment was created (201) and the
      `blog-b1` entry holds the blog with exactly that comment. */
  method StaleReadAfterComment() returns (first: Snapshot, created: nat, second: Snapshot, refreshed: Snapshot)
    ensures created == 201
    ensures first == second
    ensures first.BlogSnapshot? && first.view.Some? && first.view.value.comments == []
    ensures refreshed.BlogSnapshot? && refreshed.view.Some?
    ensures |refreshed.view.value.comments| == 1
    ensures refreshed.view.value.comments[0].content == Some("hi")
    ensures refreshed.view.value.comments[0].user == Some(UserView("u1", Some("ann"), None))
  {
    var db := Fixture(true);
    var status;
    status, first := GetSingleBlog(db, "b1");
    created := CreateComment(db, "u1", "b1", Some("hi"), "c1");
    status, second := GetSingleBlog(db, "b1");
    refreshed := db.cache[ChildRefreshKey("b1")].value;
  }

  /** likeComment on a new comment answers 200 and leaves its likes at 0. */
  method CommentLikeNotRecorded() returns (liked: nat, likes: int)
    ensures liked == 200 && likes == 0
  {
    var db := Fixture(true);
    var created := CreateComment(db, "u1", "b1", Some("hi"), "c1");
    liked := LikeComment(db, "u1", "c1");
    likes := db.comments["c1"].likes;
  }

  /** Two likes of a reply by the same user leave two entries. */
  method ReplyLikedTwice() returns (first: nat, second: nat, entries: nat)
    ensures first == 200 && second == 200 && entries == 2
  {
    var d := Documents(
      map["u1" := Ann],
      map["b1" := Post.(comments := ["c1"])],
      map["c1" := Comment("b1", "u1", Some("hi"), 0, ["r1"])],
      map["r1" := Reply("c1", "u1", [], Some("yes"))]);
    var db := new Db(d);
    first := LikeReply(db, "u1", "c1", "r1");
    assert "c1" in db.comments && "r1" in db.replies && Count(db.replies["r1"].likes, "u1") == 1;
    second := LikeReply(db, "u1", "c1", "r1");
    entries := Count(db.replies["r1"].likes, "u1");
  }

  /** Two registrations for one email both get a token; activating the
      first with the code as mailed creates the user, activating the second
      is refused, and no two users share an email. */
  method RegisterTwiceActivateTwice(r1: real, r2: real)
    returns (registered1: nat, registered2: nat, activated1: nat, activated2: nat, users: map<Id, User>)
    requires 0.0 <= r1 < 1.0 && 0.0 <= r2 < 1.0
    ensures registered1 == 200 && registered2 == 200
    ensures activated1 == 200 && activated2 == 400
    ensures "u2" in users && users["u2"].email == Some("bob@mail") && users["u2"].role == DefaultRole
    ensures "u3" !in users
    ensures EmailsUnique(users)
  {
    var db := Fixture(false);
    assert EmailsUnique(db.users);
    var t1, t2;
    registered1, t1 := RegisterUser(db, "bob", "bob@mail", "pw", r1);
    registered2, t2 := RegisterUser(db, "bob", "bob@mail", "pw2", r2);
    var code1 := t1.value.activationCode;
    var code2 := t2.value.activationCode;
    MailedCodeAccepted(code1, code1, CodeText(DecimalString(code1)));
    MailedCodeAccepted(code2, code2, CodeNumber(code2));
    activated1 := ActivateUser(db, Some(t1.value.token), CodeText(DecimalString(code1)), "u2");
    assert "u2" in db.users && db.users["u2"].email == Some("bob@mail");
    activated2 := ActivateUser(db, Some(t2.value.token), CodeNumber(code2), "u3");
    users := db.users;
  }

  /** A user authenticated once is cached; after deleting the account the
      same token still proceeds with the cached user. */
  method DeletedAccountStillAuthenticates() returns (deleted: nat, outcome: Outcome, users: map<Id, User>)
    ensures deleted == 200 && "u1" !in users
    ensures outcome == Proceed(UserSnapshot(Ann))
  {
    var db := Fixture(false);
    var before := CheckAuthAndRefreshToken(db, Verified("u1"), Missing);
    deleted := DeleteAccount(db, "u1");
    outcome := CheckAuthAndRefreshToken(db, Verified("u1"), Missing);
    users := db.users;
  }

  /** Once the middleware has cached a user, getSingleBlog with that user's
      id hits the cache and answers 200 with the user document, password
      hash included. */
  method CachedUserServedAsBlog() returns (outcome: Outcome, status: nat, fetched: Snapshot)
    ensures outcome == Proceed(UserSnapshot(Ann))
    ensures status == 200 && fetched == UserSnapshot(Ann)
    ensures fetched.user.password == Some("secret")
  {
    var db := Fixture(false);
    outcome := CheckAuthAndRefreshToken(db, Verified("u1"), Missing);
    status, fetched := GetSingleBlog(db, "u1");
  }

  /** getSingleBlog with a user's id caches `null` under that id; the
      middleware then proceeds with a `null` user for the access token, and
      refuses the refresh token. */
  method NullBlogShadowsUser() returns (fetched: Snapshot, withToken: Outcome, withRefresh: Outcome)
    ensures fetched == BlogSnapshot(None)
    ensures withToken == Proceed(BlogSnapshot(None))
    ensures withRefresh == Unauthorized
  {
    var db := Fixture(false);
    var status;
    status, fetched := GetSingleBlog(db, "u1");
    withToken := CheckAuthAndRefreshToken(db, Verified("u1"), Missing);
    withRefresh := CheckAuthAndRefreshToken(db, Missing, Verified("u1"));
  }
}
