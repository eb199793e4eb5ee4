/** The sign-up handlers of backend/src/api/v1/controllers/auth.controller.ts:
    registerUser mails an activation code and returns a token carrying the
    credentials; activateUser checks the code and creates the user.
    Request strings use "" for a missing field. `Math.random()` is the
    parameter `r`; `jwt.verify` is the oracle `verified` (none when the
    token is invalid or expired, which throws). Mail delivery is recorded
    as an event and assumed not to fail. */
module AuthController {
  import opened Common
  import opened UserModel
  import opened Store
  import opened Activation
  import opened Database

  /** registerUser. An email some user already has gives 400. Otherwise
      no user is created: the code is mailed to the email and 200 returns a
      token carrying `{name, email, password}`. */
  method RegisterUser(db: Db, name: string, email: string, password: string, r: real)
    returns (status: nat, token: Option<ActivationToken>)
    requires 0.0 <= r < 1.0
    modifies db
    ensures db.Docs() == old(db.Docs()) && db.cache == old(db.cache)
    ensures EmailTaken(old(db.users), email) ==> status == 400 && token.None? && db.OnlyResponded(400)
    ensures !EmailTaken(old(db.users), email) ==>
              && status == 200
              && token.Some?
              && token.value.token.user == TokenUser(Some(name), email, Some(password), None, None)
              && token.value.token.activationCode == token.value.activationCode
              && LowestCode <= token.value.activationCode <= HighestCode
              && db.log == old(db.log) + [MailSent(email, token.value.activationCode), Responded(200)]
  {
    if EmailTaken(db.users, email) {
      status := 400;
      token := None;
      db.Respond(status);
      return;
    }
    var t := CreateActivationToken(TokenUser(Some(name), email, Some(password), None, None), r);
    db.Mail(email, t.activationCode);
    status := 200;
    token := Some(t);
    db.Respond(status);
  }

  /** activateUser. An invalid token gives 500; a code loosely unequal to
      the token's gives 400; an email taken by now gives 400. Otherwise
      `User.create` with the name, email and password nested under the
      payload's `user` adds exactly that one user (200), or throws when they
      fail validation (500). Emails that were unique stay unique. */
  method ActivateUser(db: Db, verified: Option<Payload>, supplied: SuppliedCode, newId: Id)
    returns (status: nat)
    requires db.Valid() && Fresh(db.Docs(), newId)
    modifies db
    ensures db.Valid()
    ensures EmailsUnique(old(db.users)) ==> EmailsUnique(db.users)
    ensures db.cache == old(db.cache)
    ensures verified.None? ==> status == 500 && db.OnlyResponded(500)
    ensures verified.Some? && !LooselyEqual(verified.value.activationCode, supplied) ==>
              status == 400 && db.OnlyResponded(400)
    ensures verified.Some? && LooselyEqual(verified.value.activationCode, supplied) ==>
              var cred := verified.value.user;
              var u := UserModel.New(cred.name, Some(cred.email), cred.password);
              if EmailTaken(old(db.users), cred.email) then
                status == 400 && db.OnlyResponded(400)
              else if UserModel.Valid(u) then
                && status == 200
                && db.Docs() == old(db.Docs()).(users := old(db.users)[newId := u])
                && db.log == old(db.log) + [Responded(200)]
              else
                status == 500 && db.OnlyResponded(500)
  {
    if verified.None? {
      status := 500;
      db.Respond(status);
      return;
    }
    var payload := verified.value;
    if !LooselyEqual(payload.activationCode, supplied) {
      status := 400;
      db.Respond(status);
      return;
    }
    var cred := payload.user;
    if EmailTaken(db.users, cred.email) {
      status := 400;
      db.Respond(status);
      return;
    }
    var u := UserModel.New(cred.name, Some(cred.email), cred.password);
    if !UserModel.Valid(u) {
      status := 500;
      db.Respond(status);
      return;
    }
    if EmailsUnique(db.users) {
      UntakenEmailKeepsUnique(db.users, newId, u, cred.email);
    }
    db.users := db.users[newId := u];
    status := 200;
    db.Respond(status);
  }
}
