/** The account handlers of backend/src/api/v1/controllers/user.controller.ts.
    The requesting user (`req.user._id`) is `me`; request strings use ""
    for a missing field; `Math.random()` is `r`; `jwt.verify` is the oracle
    `verified`; the schema's missing `comparePassword` is the oracle
    `passwordMatches` (none when calling it throws). The activation token
    these handlers create is mailed about but never returned, and image
    deletion on the host is not modelled. */
module UserController {
  import opened Common
  import opened UserModel
  import opened Store
  import opened Activation
  import opened Database

  /** `user.save()` followed by the 200 answer, or the 500 answer when the
      document fails validation. `None` stands for a document holding an
      assignment whose cast failed, which `save` reports the same way. */
  method SaveUser(db: Db, id: Id, u: Option<User>) returns (status: nat)
    requires db.Valid() && id in db.users
    modifies db
    ensures db.Valid()
    ensures u.Some? && UserModel.Valid(u.value) ==>
              && status == 200
              && db.Docs() == old(db.Docs()).(users := old(db.users)[id := u.value])
              && db.cache == old(db.cache)
              && db.log == old(db.log) + [Responded(200)]
    ensures !(u.Some? && UserModel.Valid(u.value)) ==> status == 500 && db.OnlyResponded(500)
  {
    if u.Some? && UserModel.Valid(u.value) {
      db.users := db.users[id := u.value];
      status := 200;
    } else {
      status := 500;
    }
    db.Respond(status);
  }

  /** The stored email, as the account handlers use it (`user.email`). */
  function EmailOf(u: User): string
    requires UserModel.Valid(u)
  {
    u.email.value
  }

  /** `email || user.email`: where the code for a changed email is mailed. */
  function MailTarget(email: string, u: User): (to: string)
    requires UserModel.Valid(u)
    ensures to != ""
    ensures email != "" ==> to == email
    ensures email == "" ==> to == EmailOf(u)
  {
    if email != "" then email else EmailOf(u)
  }

  /** The user updateUser saves: name, email and bio take the given value
      when it is non-empty and keep the stored one otherwise; the picture is
      the uploaded `{public_id, url}` object when there is one. */
  function Merged(u: User, name: string, email: string, bio: string, upload: Option<Upload>): (m: User)
    ensures m.role == u.role && m.password == u.password
    ensures name != "" ==> m.name == Some(name)
    ensures name == "" ==> m.name == u.name
    ensures email != "" ==> m.email == Some(email)
    ensures email == "" ==> m.email == u.email
    ensures bio != "" ==> m.bio == Some(bio)
    ensures bio == "" ==> m.bio == u.bio
    ensures upload.Some? ==> m.picture == UploadedImage(upload)
    ensures upload.None? ==> m.picture == u.picture
  {
    var picture := UploadedImage(upload);
    u.(name := OrElse(name, u.name),
       email := OrElse(email, u.email),
       bio := OrElse(bio, u.bio),
       picture := if picture.Some? then picture else u.picture)
  }

  /** updateUser. An unknown user gives 404. When the given email differs
      from the stored one: if some user has it, 400 and nothing saved;
      otherwise an activation code is mailed, and the new email is saved
      right away all the same. The merged user is then saved (200), except
      that an uploaded picture fails the String cast (500, after the mail).
      Emails that were unique stay unique. */
  method UpdateUser(db: Db, me: Id, name: string, email: string, bio: string,
                    upload: Option<Upload>, r: real)
    returns (status: nat)
    requires db.Valid() && 0.0 <= r < 1.0
    modifies db
    ensures db.Valid()
    ensures EmailsUnique(old(db.users)) ==> EmailsUnique(db.users)
    ensures db.cache == old(db.cache)
    ensures me !in old(db.users) ==> status == 404 && db.OnlyResponded(404)
    ensures me in old(db.users) ==>
              var user := old(db.users)[me];
              var changed := user.email != Some(email);
              var mailed := if changed then [MailSent(MailTarget(email, user), ActivationCode(r))] else [];
              if changed && EmailTaken(old(db.users), email) then
                status == 400 && db.OnlyResponded(400)
              else if upload.None? then
                && status == 200
                && db.Docs() == old(db.Docs()).(users := old(db.users)[me := Merged(user, name, email, bio, upload)])
                && db.log == old(db.log) + mailed + [Responded(200)]
              else
                && status == 500
                && db.Docs() == old(db.Docs())
                && db.log == old(db.log) + mailed + [Responded(500)]
  {
    if me !in db.users {
      status := 404;
      db.Respond(status);
      return;
    }
    var user := db.users[me];
    var picture := UploadedImage(upload);
    if user.email != Some(email) {
      if EmailTaken(db.users, email) {
        status := 400;
        db.Respond(status);
        return;
      }
      var t := CreateActivationToken(
        TokenUser(OrElse(name, user.name), MailTarget(email, user), None, picture, OrElse(bio, user.bio)), r);
      db.Mail(MailTarget(email, user), t.activationCode);
    }
    var updated := Merged(user, name, email, bio, upload);
    if upload.Some? {
      PictureObjectRejected(updated.(picture := user.picture), upload.value.secureUrl, upload.value.publicId);
    }
    if EmailsUnique(db.users) {
      if updated.email == user.email {
        WriteKeepsEmailsUnique(db.users, me, updated);
      } else {
        UntakenEmailKeepsUnique(db.users, me, updated, email);
      }
    }
    status := SaveUser(db, me, Some(updated));
  }

  /** The user an activation handler saves after assigning the payload's
      top-level `key` to the String path `key`; `None` when the cast fails. */
  function AfterAssign(u: User, p: Payload, key: string): Option<User>
    requires key == "email" || key == "password"
  {
    var cast := AssignToStringPath(TopLevel(p, key));
    if cast.None? then None
    else if key == "email" then Some(u.(email := cast.value))
    else Some(u.(password := cast.value))
  }

  /** activateNewEmail. An invalid token gives 500 and a mismatching code
      400; an unknown user 404. Otherwise the email is set from the
      payload's top-level `email`, which does not exist (the credentials are
      nested under `user`): the email is unset, the required validator
      fails, and the answer is always 500 with nothing saved. */
  method ActivateNewEmail(db: Db, me: Id, verified: Option<Payload>, supplied: SuppliedCode)
    returns (status: nat)
    requires db.Valid()
    modifies db
    ensures db.Valid()
    ensures db.Docs() == old(db.Docs())
    ensures verified.None? ==> status == 500 && db.OnlyResponded(500)
    ensures verified.Some? && !LooselyEqual(verified.value.activationCode, supplied) ==>
              status == 400 && db.OnlyResponded(400)
    ensures verified.Some? && LooselyEqual(verified.value.activationCode, supplied) ==>
              if me !in old(db.users) then status == 404 && db.OnlyResponded(404)
              else status == 500 && db.OnlyResponded(500)
  {
    if verified.None? {
      status := 500;
      db.Respond(status);
      return;
    }
    var payload := verified.value;
    if !LooselyEqual(payload.activationCode, supplied) {
      status := 400;
      db.Respond(status);
      return;
    }
    if me !in db.users {
      status := 404;
      db.Respond(status);
      return;
    }
    CredentialsAreNested(payload);
    status := SaveUser(db, me, AfterAssign(db.users[me], payload, "email"));
  }

  /** activatePasswordChange. An invalid token gives 500 and a mismatching
      code 400; an unknown user 404. Otherwise the password is set from the
      payload's top-level `password`, which does not exist: the password is
      removed from the user, who is saved, and the answer is 200. Emails
      stay unique since no email changes. */
  method ActivatePasswordChange(db: Db, me: Id, verified: Option<Payload>, supplied: SuppliedCode)
    returns (status: nat)
    requires db.Valid()
    modifies db
    ensures db.Valid()
    ensures EmailsUnique(old(db.users)) ==> EmailsUnique(db.users)
    ensures db.cache == old(db.cache)
    ensures verified.None? ==> status == 500 && db.OnlyResponded(500)
    ensures verified.Some? && !LooselyEqual(verified.value.activationCode, supplied) ==>
              status == 400 && db.OnlyResponded(400)
    ensures verified.Some? && LooselyEqual(verified.value.activationCode, supplied) ==>
              if me !in old(db.users) then status == 404 && db.OnlyResponded(404)
              else
                && status == 200
                && db.Docs() == old(db.Docs()).(users := old(db.users)[me := old(db.users)[me].(password := None)])
                && db.log == old(db.log) + [Responded(200)]
  {
    if verified.None? {
      status := 500;
      db.Respond(status);
      return;
    }
    var payload := verified.value;
    if !LooselyEqual(payload.activationCode, supplied) {
      status := 400;
      db.Respond(status);
      return;
    }
    if me !in db.users {
      status := 404;
      db.Respond(status);
      return;
    }
    CredentialsAreNested(payload);
    var user := db.users[me];
    if EmailsUnique(db.users) {
      WriteKeepsEmailsUnique(db.users, me, user.(password := None));
    }
    status := SaveUser(db, me, AfterAssign(user, payload, "password"));
  }

  /** activateForgetPassword: the same steps as activatePasswordChange;
      the `newPassword` of the request is never read, so the outcome does
      not depend on it. */
  method ActivateForgetPassword(db: Db, me: Id, verified: Option<Payload>, supplied: SuppliedCode,
                                newPassword: string)
    returns (status: nat)
    requires db.Valid()
    modifies db
    ensures db.Valid()
    ensures EmailsUnique(old(db.users)) ==> EmailsUnique(db.users)
    ensures db.cache == old(db.cache)
    ensures verified.None? ==> status == 500 && db.OnlyResponded(500)
    ensures verified.Some? && !LooselyEqual(verified.value.activationCode, supplied) ==>
              status == 400 && db.OnlyResponded(400)
    ensures verified.Some? && LooselyEqual(verified.value.activationCode, supplied) ==>
              if me !in old(db.users) then status == 404 && db.OnlyResponded(404)
              else
                && status == 200
                && db.Docs() == old(db.Docs()).(users := old(db.users)[me := old(db.users)[me].(password := None)])
                && db.log == old(db.log) + [Responded(200)]
  {
    status := ActivatePasswordChange(db, me, verified, supplied);
  }

  /** updatePassword. A missing old password gives 400 and an unknown user
      404. A failing comparison gives 500 (it throws) or 400 (wrong
      password). A matching one mails an activation code to the user and
      answers 200. The user is never saved. */
  method UpdatePassword(db: Db, me: Id, oldPassword: string, passwordMatches: Option<bool>, r: real)
    returns (status: nat)
    requires db.Valid() && 0.0 <= r < 1.0
    modifies db
    ensures db.Docs() == old(db.Docs()) && db.cache == old(db.cache)
    ensures oldPassword == "" ==> status == 400 && db.OnlyResponded(400)
    ensures oldPassword != "" && me !in old(db.users) ==> status == 404 && db.OnlyResponded(404)
    ensures oldPassword != "" && me in old(db.users) ==>
              match passwordMatches
              case None => status == 500 && db.OnlyResponded(500)
              case Some(false) => status == 400 && db.OnlyResponded(400)
              case Some(true) =>
                && status == 200
                && db.log == old(db.log) + [MailSent(EmailOf(old(db.users)[me]), ActivationCode(r)), Responded(200)]
  {
    if oldPassword == "" {
      status := 400;
      db.Respond(status);
      return;
    }
    if me !in db.users {
      status := 404;
      db.Respond(status);
      return;
    }
    var user := db.users[me];
    if passwordMatches.None? {
      status := 500;
      db.Respond(status);
      return;
    }
    if !passwordMatches.value {
      status := 400;
      db.Respond(status);
      return;
    }
    var t := CreateActivationToken(TokenUser(user.name, EmailOf(user), None, user.picture, user.bio), r);
    db.Mail(EmailOf(user), t.activationCode);
    status := 200;
    db.Respond(status);
  }

  /** forgetPassword. A missing email gives 400, an email no user has 404.
      Otherwise an activation code is mailed to that email and the answer
      is 200. Nothing is saved. */
  method ForgetPassword(db: Db, email: string, r: real) returns (status: nat)
    requires db.Valid() && 0.0 <= r < 1.0
    modifies db
    ensures db.Docs() == old(db.Docs()) && db.cache == old(db.cache)
    ensures email == "" ==> status == 400 && db.OnlyResponded(400)
    ensures email != "" && !EmailTaken(old(db.users), email) ==> status == 404 && db.OnlyResponded(404)
    ensures email != "" && EmailTaken(old(db.users), email) ==>
              && status == 200
              && db.log == old(db.log) + [MailSent(email, ActivationCode(r)), Responded(200)]
  {
    if email == "" {
      status := 400;
      db.Respond(status);
      return;
    }
    if !EmailTaken(db.users, email) {
      status := 404;
      db.Respond(status);
      return;
    }
    var id :| id in db.users && db.users[id].email == Some(email);
    var user := db.users[id];
    var t := CreateActivationToken(TokenUser(user.name, EmailOf(user), None, user.picture, user.bio), r);
    db.Mail(EmailOf(user), t.activationCode);
    status := 200;
    db.Respond(status);
  }

  /** deleteAccount. An unknown user gives 404. Otherwise the user document
      is deleted and 200 sent; the user's blogs, comments and replies stay,
      and so does the user's entry in the middleware's cache. */
  method DeleteAccount(db: Db, me: Id) returns (status: nat)
    requires db.Valid()
    modifies db
    ensures db.Valid()
    ensures EmailsUnique(old(db.users)) ==> EmailsUnique(db.users)
    ensures db.cache == old(db.cache)
    ensures me !in old(db.users) ==> status == 404 && db.OnlyResponded(404)
    ensures me in old(db.users) ==>
              && status == 200
              && db.Docs() == old(db.Docs()).(users := old(db.users) - {me})
              && db.log == old(db.log) + [Responded(200)]
  {
    if me !in db.users {
      status := 404;
      db.Respond(status);
      return;
    }
    db.users := db.users - {me};
    status := 200;
    db.Respond(status);
  }
}
