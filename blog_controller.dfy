/** The blog handlers of backend/src/api/v1/controllers/blog.controller.ts.
    They cache a populated blog under its bare id, for seven days. The
    requesting user (`req.user._id`), the request fields, the upload result
    and the id a new document receives are parameters. Tags arrive already
    parsed; `None` stands for a missing or empty `tags` field, which
    `tags ? JSON.parse(tags) : []` turns into no tags. */
module BlogController {
  import opened Common
  import opened BlogModel
  import opened Store
  import opened Projection
  import opened Cache
  import opened Database

  /** `Blog.create(blog)`, then the 201 response, then the populated blog
      cached under its bare id. A document that fails validation makes
      `create` throw, and the handler answers 400. */
  method InsertBlog(db: Db, newId: Id, blog: Blog) returns (status: nat)
    requires db.Valid() && Fresh(db.Docs(), newId)
    modifies db
    ensures db.Valid()
    ensures BlogModel.Valid(blog) ==>
              && status == 201
              && db.Docs() == old(db.Docs()).(blogs := old(db.blogs)[newId := blog])
              && db.cache == old(db.cache)[BlogKey(newId) := BlogEntry(PopulateBlog(db.Docs(), newId))]
              && db.log == old(db.log) + [Responded(201), CacheSet(BlogKey(newId), Some(BlogTtl))]
    ensures !BlogModel.Valid(blog) ==> status == 400 && db.OnlyResponded(400)
  {
    if !BlogModel.Valid(blog) {
      status := 400;
      db.Respond(status);
      return;
    }
    db.blogs := db.blogs[newId := blog];
    status := 201;
    db.Respond(status);
    db.SetCache(BlogKey(newId), BlogEntry(PopulateBlog(db.Docs(), newId)));
  }

  /** The document createBlog hands to `Blog.create`: the author is the
      requesting user, the tags default to none, and the cover image is the
      `{url, public_id}` object of the upload, or missing. The schema
      declares `coverImage` a required String, so either way the document
      fails validation. */
  function RequestedBlog(me: Id, title: Option<string>, category: Option<string>,
                         tags: Option<seq<string>>, content: Option<string>,
                         upload: Option<Upload>): (b: Blog)
    ensures b.author == me && b.title == title && b.category == category && b.content == content
    ensures tags.None? ==> b.tags == []
    ensures tags.Some? ==> b.tags == tags.value
    ensures b.coverImage == UploadedImage(upload)
    ensures b.views == 0 && b.likes == [] && b.comments == []
    ensures !BlogModel.Valid(b)
  {
    var b := BlogModel.New(title, me, category, if tags.Some? then tags.value else [], UploadedImage(upload), content);
    CoverImageMustBeText(b);
    b
  }

  /** createBlog: `Blog.create` always throws, so no blog is ever created
      and the answer is always 400. */
  method CreateBlog(db: Db, me: Id, title: Option<string>, category: Option<string>,
                    tags: Option<seq<string>>, content: Option<string>,
                    upload: Option<Upload>, newId: Id)
    returns (status: nat)
    requires db.Valid() && Fresh(db.Docs(), newId)
    modifies db
    ensures status == 400
    ensures db.OnlyResponded(400)
  {
    status := InsertBlog(db, newId, RequestedBlog(me, title, category, tags, content, upload));
  }

  /** getSingleBlog: a present cache entry is returned as it is, whatever
      it holds, without reading the store; otherwise the populated blog
      (`null` for an unknown id) is cached for seven days and returned. The
      answer is 200 either way. */
  method GetSingleBlog(db: Db, id: Id) returns (status: nat, blog: Snapshot)
    modifies db
    ensures status == 200
    ensures db.Docs() == old(db.Docs())
    ensures BlogKey(id) in old(db.cache) ==>
              && blog == old(db.cache)[BlogKey(id)].value
              && db.OnlyResponded(200)
    ensures BlogKey(id) !in old(db.cache) ==>
              && blog == BlogSnapshot(PopulateBlog(db.Docs(), id))
              && db.cache == old(db.cache)[BlogKey(id) := BlogEntry(PopulateBlog(db.Docs(), id))]
              && db.log == old(db.log) + [CacheSet(BlogKey(id), Some(BlogTtl)), Responded(200)]
  {
    status := 200;
    if BlogKey(id) in db.cache {
      blog := db.cache[BlogKey(id)].value;
      db.Respond(status);
      return;
    }
    var view := PopulateBlog(db.Docs(), id);
    db.SetCache(BlogKey(id), BlogEntry(view));
    blog := BlogSnapshot(view);
    db.Respond(status);
  }

  /** updateBlog. An unknown id gives 404. Otherwise `findByIdAndUpdate`
      with validators applies the `$set` document: given fields overwrite,
      absent ones keep their value, tags are reset when none are given. A
      given field that is empty, or an uploaded cover image, fails
      validation (400). On success the answer 200 comes first, then the
      populated blog is cached under the bare id. */
  method UpdateBlog(db: Db, id: Id, title: Option<string>, category: Option<string>,
                    tags: Option<seq<string>>, content: Option<string>, upload: Option<Upload>)
    returns (status: nat)
    requires db.Valid()
    modifies db
    ensures db.Valid()
    ensures id !in old(db.blogs) ==> status == 404 && db.OnlyResponded(404)
    ensures id in old(db.blogs) ==>
              var u := BlogUpdate(title, category, if tags.Some? then tags.value else [], content, UploadedImage(upload));
              if UpdateValid(u) then
                && status == 200
                && db.Docs() == old(db.Docs()).(blogs := old(db.blogs)[id := ApplyUpdate(old(db.blogs)[id], u)])
                && db.cache == old(db.cache)[BlogKey(id) := BlogEntry(PopulateBlog(db.Docs(), id))]
                && db.log == old(db.log) + [Responded(200), CacheSet(BlogKey(id), Some(BlogTtl))]
              else
                status == 400 && db.OnlyResponded(400)
    ensures id in old(db.blogs) && upload.Some? ==> status == 400
    ensures status == 200 && tags.None? ==> id in db.blogs && db.blogs[id].tags == []
  {
    if id !in db.blogs {
      status := 404;
      db.Respond(status);
      return;
    }
    var u := BlogUpdate(title, category, if tags.Some? then tags.value else [], content, UploadedImage(upload));
    if upload.Some? {
      CoverImageUpdateRejected(u);
    }
    if !UpdateValid(u) {
      status := 400;
      db.Respond(status);
      return;
    }
    db.blogs := db.blogs[id := ApplyUpdate(db.blogs[id], u)];
    status := 200;
    db.Respond(status);
    db.SetCache(BlogKey(id), BlogEntry(PopulateBlog(db.Docs(), id)));
  }

  /** deleteBlog. An unknown id gives 404. Otherwise the blog is deleted,
      the answer 200 sent, and then the bare-id cache entry deleted. The
      blog's comments stay in the store and a `blog-<id>` refresh entry
      stays in the cache. */
  method DeleteBlog(db: Db, id: Id) returns (status: nat)
    requires db.Valid()
    modifies db
    ensures db.Valid()
    ensures id !in old(db.blogs) ==> status == 404 && db.OnlyResponded(404)
    ensures id in old(db.blogs) ==>
              && status == 200
              && db.Docs() == old(db.Docs()).(blogs := old(db.blogs) - {id})
              && db.cache == old(db.cache) - {BlogKey(id)}
              && db.log == old(db.log) + [Responded(200), CacheDeleted(BlogKey(id))]
    ensures db.comments == old(db.comments)
    ensures SameEntry(old(db.cache), db.cache, ChildRefreshKey(id))
  {
    if id !in db.blogs {
      status := 404;
      db.Respond(status);
      return;
    }
    db.blogs := db.blogs - {id};
    status := 200;
    db.Respond(status);
    db.DeleteCache(BlogKey(id));
  }
}
