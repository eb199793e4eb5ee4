/** The Blog schema of backend/src/api/v1/models/blog.model.ts: the stored
    document, the schema's validators, its defaults, and the partial update
    `findByIdAndUpdate` applies with `runValidators`. */
module BlogModel {
  import opened Common

  /** A stored blog. `coverImage` holds whatever value was assigned to the
      path the schema declares as a required `String`. Timestamps are not
      modelled. */
  datatype Blog = Blog(
    title: Option<string>,
    author: Id,
    category: Option<string>,
    tags: seq<string>,
    coverImage: Option<FieldValue>,
    content: Option<string>,
    views: int,
    likes: seq<Id>,
    comments: seq<Id>)

  /** The schema's validators: title, category, coverImage and content are
      required Strings (the required `author` ref is always supplied). */
  predicate Valid(b: Blog) {
    && RequiredString(b.title)
    && RequiredString(b.category)
    && RequiredText(b.coverImage)
    && RequiredString(b.content)
  }

  /** The document `Blog.create(data)` builds before validating it. */
  function New(title: Option<string>, author: Id, category: Option<string>, tags: seq<string>,
               coverImage: Option<FieldValue>, content: Option<string>): (b: Blog)
    ensures b.views == 0 && b.likes == [] && b.comments == []
    ensures b.author == author && b.tags == tags
    ensures Valid(b) <==> RequiredString(title) && RequiredString(category)
                          && RequiredText(coverImage) && RequiredString(content)
  {
    Blog(title, author, category, tags, coverImage, content, 0, [], [])
  }

  /** The schema declares `coverImage` a String: a blog whose cover image is
      missing, or is the `{url, public_id}` object an upload yields, never
      passes validation. */
  lemma CoverImageMustBeText(b: Blog)
    requires b.coverImage.None? || b.coverImage.value.ImageRef?
    ensures !Valid(b)
  {
  }

  /** The `$set` document updateBlog sends. An absent (undefined) key is
      dropped by Mongoose and leaves the stored value alone; `tags` is always
      present. */
  datatype BlogUpdate = BlogUpdate(
    title: Option<string>,
    category: Option<string>,
    tags: seq<string>,
    content: Option<string>,
    coverImage: Option<FieldValue>)

  /** With `runValidators: true` only the paths being set are validated. */
  predicate UpdateValid(u: BlogUpdate) {
    && (u.title.Some? ==> RequiredString(u.title))
    && (u.category.Some? ==> RequiredString(u.category))
    && (u.content.Some? ==> RequiredString(u.content))
    && (u.coverImage.Some? ==> RequiredText(u.coverImage))
  }

  function Overwrite<T>(given: Option<T>, stored: Option<T>): Option<T> {
    if given.Some? then given else stored
  }

  /** The document after `findByIdAndUpdate(id, u)`. */
  function ApplyUpdate(b: Blog, u: BlogUpdate): (r: Blog)
    ensures Valid(b) && UpdateValid(u) ==> Valid(r)
    ensures r.author == b.author && r.views == b.views
    ensures r.likes == b.likes && r.comments == b.comments
    ensures r.tags == u.tags
    ensures u.title.Some? ==> r.title == u.title
    ensures u.title.None? ==> r.title == b.title
    ensures u.category.Some? ==> r.category == u.category
    ensures u.category.None? ==> r.category == b.category
    ensures u.content.Some? ==> r.content == u.content
    ensures u.content.None? ==> r.content == b.content
    ensures u.coverImage.Some? ==> r.coverImage == u.coverImage
    ensures u.coverImage.None? ==> r.coverImage == b.coverImage
  {
    b.(title := Overwrite(u.title, b.title),
       category := Overwrite(u.category, b.category),
       tags := u.tags,
       content := Overwrite(u.content, b.content),
       coverImage := Overwrite(u.coverImage, b.coverImage))
  }

  /** An update carrying an uploaded cover image never passes validation. */
  lemma CoverImageUpdateRejected(u: BlogUpdate)
    requires u.coverImage.Some? && u.coverImage.value.ImageRef?
    ensures !UpdateValid(u)
  {
  }
}
