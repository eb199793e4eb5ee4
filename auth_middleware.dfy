/** The decision procedure of
    backend/src/middlewares/checkAuthAndRefreshToken.ts with its
    read-through user cache. The user is looked up in Redis under the bare
    id the token carries, the keyspace getSingleBlog also uses; on a miss
    the stored user is cached with no expiry. `jwt.verify` with each
    cookie's secret is an oracle folded into the cookie. */
module AuthMiddleware {
  import opened Common
  import opened UserModel
  import opened Cache
  import opened Database

  /** A cookie as the middleware sees it: missing (falsy), present but
      failing verification, or verified and carrying a user id. */
  datatype Cookie = Missing | Rejected | Verified(id: Id)

  /** The middleware's outcome: a 401 answer, `next()` with `req.user` set
      to the principal, or neither (the request is left hanging). */
  datatype Outcome = Unauthorized | Proceed(principal: Snapshot) | NoResponse

  /** setTokenCookie clears a truthy `password` on the user it answers
      with; `req.user` is that same object. */
  function WithoutPassword(s: Snapshot): (r: Snapshot)
    ensures r.UserSnapshot? <==> s.UserSnapshot?
    ensures r.UserSnapshot? ==> r.user.password.None? || r.user.password == Some("")
    ensures r.UserSnapshot? ==> r.user.(password := s.user.password) == s.user
    ensures r.BlogSnapshot? ==> r == s
  {
    if s.UserSnapshot? && s.user.password.Some? && s.user.password.value != "" then
      UserSnapshot(s.user.(password := None))
    else s
  }

  /** The read-through lookup of both branches: a present cache entry is
      taken as it is, without reading the store; on a miss the stored user
      is cached with no expiry; an unknown user yields nothing. */
  method Resolve(db: Db, id: Id) returns (principal: Option<Snapshot>)
    modifies db
    ensures db.Docs() == old(db.Docs())
    ensures UserKey(id) in old(db.cache) ==>
              principal == Some(old(db.cache)[UserKey(id)].value)
              && db.cache == old(db.cache) && db.log == old(db.log)
    ensures UserKey(id) !in old(db.cache) && id in old(db.users) ==>
              var u := UserSnapshot(old(db.users)[id]);
              && principal == Some(u)
              && db.cache == old(db.cache)[UserKey(id) := Entry(u, None)]
              && db.log == old(db.log) + [CacheSet(UserKey(id), None)]
    ensures UserKey(id) !in old(db.cache) && id !in old(db.users) ==>
              principal.None? && db.cache == old(db.cache) && db.log == old(db.log)
  {
    if UserKey(id) in db.cache {
      return Some(db.cache[UserKey(id)].value);
    }
    if id !in db.users {
      return None;
    }
    var u := UserSnapshot(db.users[id]);
    db.SetCache(UserKey(id), Entry(u, None));
    principal := Some(u);
  }

  /** checkAuthAndRefreshToken. With neither cookie: 401. With an access
      token the refresh token is never looked at: a failing token gives 401,
      a known user proceeds, an unknown one gets no answer at all. With only
      a refresh token the same, except that proceeding first reissues both
      cookies and answers 200 through setTokenCookie; a cached `null` there
      makes setTokenCookie throw (401). The store is never written. */
  method CheckAuthAndRefreshToken(db: Db, token: Cookie, refreshToken: Cookie) returns (outcome: Outcome)
    modifies db
    ensures db.Docs() == old(db.Docs())
    ensures token.Missing? && refreshToken.Missing? ==> outcome == Unauthorized && db.OnlyResponded(401)
    ensures token.Rejected? ==> outcome == Unauthorized && db.OnlyResponded(401)
    ensures token.Verified? ==>
              var id := token.id;
              if UserKey(id) in old(db.cache) then
                && outcome == Proceed(old(db.cache)[UserKey(id)].value)
                && db.cache == old(db.cache) && db.log == old(db.log)
              else if id in old(db.users) then
                && outcome == Proceed(UserSnapshot(old(db.users)[id]))
                && db.cache == old(db.cache)[UserKey(id) := Entry(UserSnapshot(old(db.users)[id]), None)]
                && db.log == old(db.log) + [CacheSet(UserKey(id), None)]
              else
                outcome == NoResponse && db.cache == old(db.cache) && db.log == old(db.log)
    ensures token.Missing? && refreshToken.Rejected? ==> outcome == Unauthorized && db.OnlyResponded(401)
    ensures token.Missing? && refreshToken.Verified? ==>
              var id := refreshToken.id;
              if UserKey(id) in old(db.cache) then
                var cached := old(db.cache)[UserKey(id)].value;
                && db.cache == old(db.cache)
                && (if cached == BlogSnapshot(None) then
                      outcome == Unauthorized && db.log == old(db.log) + [Responded(401)]
                    else
                      outcome == Proceed(WithoutPassword(cached))
                      && db.log == old(db.log) + [CookiesIssued, Responded(200)])
              else if id in old(db.users) then
                var u := UserSnapshot(old(db.users)[id]);
                && outcome == Proceed(WithoutPassword(u))
                && db.cache == old(db.cache)[UserKey(id) := Entry(u, None)]
                && db.log == old(db.log) + [CacheSet(UserKey(id), None), CookiesIssued, Responded(200)]
              else
                outcome == NoResponse && db.cache == old(db.cache) && db.log == old(db.log)
  {
    if token.Missing? && refreshToken.Missing? {
      outcome := Unauthorized;
      db.Respond(401);
      return;
    }
    if !token.Missing? {
      if token.Rejected? {
        outcome := Unauthorized;
        db.Respond(401);
        return;
      }
      var principal := Resolve(db, token.id);
      if principal.None? {
        return NoResponse;
      }
      return Proceed(principal.value);
    }
    if refreshToken.Rejected? {
      outcome := Unauthorized;
      db.Respond(401);
      return;
    }
    var principal := Resolve(db, refreshToken.id);
    if principal.None? {
      return NoResponse;
    }
    if principal.value == BlogSnapshot(None) {
      outcome := Unauthorized;
      db.Respond(401);
      return;
    }
    db.IssueCookies();
    db.Respond(200);
    outcome := Proceed(WithoutPassword(principal.value));
  }
}
