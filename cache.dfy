/** The Redis keyspace the handlers share: blog snapshots written by the
    blog, comment and reply controllers, and user snapshots written by the
    auth middleware, all in one flat namespace of string keys. */
module Cache {
  import opened Common
  import opened UserModel
  import opened Projection

  /** `7 * 24 * 60 * 60`: seven days, in seconds. */
  const BlogTtl: nat := 7 * 24 * 60 * 60

  /** A value stored with `JSON.stringify`: a populated blog (`null` when
      there is no such blog) or a user document. */
  datatype Snapshot = BlogSnapshot(view: Option<BlogView>) | UserSnapshot(user: User)

  /** A Redis entry: its value and the `EX` expiry it was set with, none
      when set without one. Expiry itself is not modelled. */
  datatype Entry = Entry(value: Snapshot, ttl: Option<nat>)

  /** The key blog.controller reads and writes for a blog. */
  function BlogKey(id: Id): string {
    id
  }

  /** The key the comment and reply controllers refresh for a blog. */
  function ChildRefreshKey(id: Id): (k: string)
    ensures |k| == |id| + 5
    ensures k[..5] == "blog-" && k[5..] == id
  {
    "blog-" + id
  }

  /** The key the auth middleware caches a user under. */
  function UserKey(id: Id): string {
    id
  }

  /** For ids of one length, such as 24-character ObjectIds, a refresh
      written by a comment or reply handler is never the entry getSingleBlog
      reads, for the same blog or any other, nor a cached user. */
  lemma KeySchemesDisjoint(a: Id, b: Id)
    requires |a| == |b|
    ensures ChildRefreshKey(a) != BlogKey(b)
    ensures ChildRefreshKey(a) != UserKey(b)
  {
  }

  /** The entry at `key` is the same in both caches (or absent from both). */
  predicate SameEntry(before: map<string, Entry>, after: map<string, Entry>, key: string) {
    (key in before <==> key in after) && (key in before ==> before[key] == after[key])
  }

  /** The blog entry the handlers write: the populated view, seven days. */
  function BlogEntry(view: Option<BlogView>): (e: Entry)
    ensures e.ttl == Some(BlogTtl) && e.value.BlogSnapshot?
  {
    Entry(BlogSnapshot(view), Some(BlogTtl))
  }
}
