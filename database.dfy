/** The state every handler works on: the four MongoDB collections, the
    Redis keyspace, and the order of the observable events (responses,
    cache writes, mails), as one object whose fields the handlers update. */
module Database {
  import opened Common
  import opened BlogModel
  import opened CommentModel
  import opened ReplyModel
  import opened UserModel
  import opened Store
  import opened Cache

  /** An observable effect, in the order the handler performs it. */
  datatype Event =
    | Responded(status: nat)
    | CacheSet(key: string, ttl: Option<nat>)
    | CacheDeleted(key: string)
    | MailSent(to: string, code: nat)
    | CookiesIssued

  class Db {
    var users: map<Id, User>
    var blogs: map<Id, Blog>
    var comments: map<Id, Comment>
    var replies: map<Id, Reply>
    var cache: map<string, Entry>
    var log: seq<Event>

    /** The collections as one value. */
    function Docs(): Documents
      reads this
    {
      Documents(users, blogs, comments, replies)
    }

    /** Every stored document passed its schema's validators. */
    predicate Valid()
      reads this
    {
      AllValid(Docs())
    }

    /** A database holding the given documents, an empty cache and no
        events yet. */
    constructor (d: Documents)
      requires AllValid(d)
      ensures Docs() == d && cache == map[] && log == []
      ensures Valid()
    {
      users := d.users;
      blogs := d.blogs;
      comments := d.comments;
      replies := d.replies;
      cache := map[];
      log := [];
    }

    /** `res.status(status).json(...)`. */
    method Respond(status: nat)
      modifies this
      ensures log == old(log) + [Responded(status)]
      ensures Docs() == old(Docs()) && cache == old(cache)
    {
      log := log + [Responded(status)];
    }

    /** `redis.set(key, JSON.stringify(value), ...)`. */
    method SetCache(key: string, e: Entry)
      modifies this
      ensures cache == old(cache)[key := e]
      ensures log == old(log) + [CacheSet(key, e.ttl)]
      ensures Docs() == old(Docs())
    {
      cache := cache[key := e];
      log := log + [CacheSet(key, e.ttl)];
    }

    /** `redis.del(key)`. */
    method DeleteCache(key: string)
      modifies this
      ensures cache == old(cache) - {key}
      ensures log == old(log) + [CacheDeleted(key)]
      ensures Docs() == old(Docs())
    {
      cache := cache - {key};
      log := log + [CacheDeleted(key)];
    }

    /** `sendMail` with the activation code in its subject. */
    method Mail(to: string, code: nat)
      modifies this
      ensures log == old(log) + [MailSent(to, code)]
      ensures Docs() == old(Docs()) && cache == old(cache)
    {
      log := log + [MailSent(to, code)];
    }

    /** setTokenCookie's two `res.cookie` calls. */
    method IssueCookies()
      modifies this
      ensures log == old(log) + [CookiesIssued]
      ensures Docs() == old(Docs()) && cache == old(cache)
    {
      log := log + [CookiesIssued];
    }

    /** The handler answered `status` and changed nothing else. */
    twostate predicate OnlyResponded(status: nat)
      reads this
    {
      Docs() == old(Docs()) && cache == old(cache) && log == old(log) + [Responded(status)]
    }
  }
}
